# Fridge-Critic audio and result-view core, in Dafny

Fridge-Critic photographs a fridge, has a generative model grade its contents
(a "sinner score", a list of detected items with a roast each, a rescue
recipe) and talks back. Two React components hold the logic modelled here.

- **The voice component** (`components/VoiceInteraction.tsx`) runs a live voice
  session:
  - Microphone blocks are quantised to 16-bit PCM, base64-encoded and streamed
    out.
  - Base64 PCM chunks from the model are decoded and queued gaplessly on an
    output audio context.
  - Transcriptions are folded into a chat history.
  - An interruption flushes the queue.
  - Stopping ends capture, stops every queued node and closes both contexts.
    It does not close the live session itself.
- **The result view** (`components/AnalysisDisplay.tsx`) shows the grade:
  - Score colours, a status label and a gauge.
  - Toggleable item markers, the first of which is selected automatically.
  - A "Hear Roasting" button whose speech goes through a one-shot PCM player
    (`playPcm`) that stops the previous clip before starting the next.

## Modules

| file | module | what it holds |
|---|---|---|
| `basics.dfy` | `Basics` | bytes, `Option`, the browser exceptions, `Result` |
| `binary_string.dfy` | `BinaryString` | JavaScript binary strings and the character-code loops |
| `base64.dfy` | `Base64` | `btoa` and `atob`: base64 per section 4 of RFC 4648, decoded the forgiving way the HTML standard's `atob` does |
| `codec.dfy` | `Codec` | the voice component's `encode` and `decode` |
| `pcm.dfy` | `Pcm` | little-endian 16-bit samples, `/ 32768` on playback, ECMAScript ToInt16 on capture |
| `audio_data.dfy` | `AudioData` | `AudioBuffer`, the voice component's `decodeAudioData`, the one-shot player's buffer |
| `capture.dfy` | `Capture` | one microphone block as sent |
| `playback.dfy` | `Playback` | the `nextStartTime` cursor and the set of started sources |
| `transcript.dfy` | `Transcript` | the chat history |
| `voice_session.dfy` | `VoiceSession` | the session as a state machine over user and browser events |
| `one_shot.dfy` | `OneShot` | `playPcm` and its module-level current source |
| `analysis_view.dfy` | `AnalysisView` | the analysis records, score presentation, markers, the speak button |

Browser effects are data:
- Starting and stopping an audio node is an `Effect` appended to a log.
- Releasing a stream, processor or context is a `Release`.
- A sent microphone block is a `Blob`.

"Playing" means started in the log and not stopped since (`Playback.Live`).

Where the code behaves unexpectedly, the model follows the code:
- An interruption puts the cursor back to 0. Stopping the session leaves the
  cursor where it was.
- An output transcription is appended to the agent entry in progress, so agent
  speech accumulates in one entry.
- In a message carrying both kinds of transcription, the input one wins.
- Capture multiplies by 32768 and stores through ToInt16. That truncates and
  wraps, so a full-scale sample of 1.0 is sent as -32768.
- The refs are never cleared. A second stop therefore closes and disconnects
  the same resources again.
- A decoding throw inside `onmessage` ends the handler. An interruption in the
  same message is then not applied.
- The score label says "Balanced Stock" at exactly 30, while the colour there
  is already emerald.
- Clicking a marker twice does not always restore the selection. When another
  marker was open, the first click selects the clicked one and the second
  clears it, so nothing is selected.

## Model

| member | source | states |
|---|---|---|
| `BinaryString.FromBytes` | components/VoiceInteraction.tsx:31-36 | the binary string has one character per byte, character i having code byte i, so it never holds a code above 0xFF |
| `BinaryString.ToBytes` | components/VoiceInteraction.tsx:22-28 | one byte per character, byte i being character i's code modulo 256 (a `Uint8Array` store), and exactly the code when the string is binary |
| `BinaryString.ToBytesFromBytes` | components/VoiceInteraction.tsx:22-36 | turning bytes into a binary string and back gives the bytes, so the length is kept |
| `BinaryString.FromBytesToBytes` | components/VoiceInteraction.tsx:22-36 | turning a binary string into bytes and back gives the string |
| `Base64.DigitValue` | components/VoiceInteraction.tsx:22 | a character accepted as a base64 digit has a six-bit value whose digit is that character |
| `Base64.DigitValueOfDigit` | components/VoiceInteraction.tsx:22 | every six-bit value's digit is read back as that value |
| `Base64.Sextets` | components/VoiceInteraction.tsx:37 | `btoa` splits the bytes into values each below 64 |
| `Base64.Octets` | components/VoiceInteraction.tsx:22 | `atob` reassembles three bytes from every four values and one or two from a final group of three or two |
| `Base64.Encode` | components/VoiceInteraction.tsx:37 | a `btoa` output is whole groups of four characters, each a base64 digit or '=', with '=' only in the last two places |
| `Base64.UngroupGroup` | components/VoiceInteraction.tsx:21-38 | three bytes split into four six-bit values are reassembled exactly |
| `Base64.SextetsLength` | components/VoiceInteraction.tsx:37 | an encoding has four digits per full 3-byte group plus two or three for a final partial group, so never 1 modulo 4 |
| `Base64.EncodeLength` | components/VoiceInteraction.tsx:37 | `btoa` output is 4 characters per started group of 3 bytes |
| `Base64.StripWhitespace` | components/VoiceInteraction.tsx:22 | the first step of `atob` leaves no ASCII whitespace, never lengthens the input and leaves whitespace-free input unchanged |
| `Base64.StripWhitespaceAppend` | components/VoiceInteraction.tsx:22 | whitespace removal keeps every other character, in order: appending a character appends it to the result unless it is whitespace |
| `Base64.StripPadding` | components/VoiceInteraction.tsx:22 | the second step drops at most two trailing '=' and only when the length is a multiple of four; then one trailing '=' is always dropped, and two when both last characters are '=' |
| `Base64.Decode` | components/VoiceInteraction.tsx:22 | decoding only ever fails with InvalidCharacterError, and always fails when the whitespace-free length is 1 modulo 4 |
| `Base64.Btoa` | components/VoiceInteraction.tsx:37 | `btoa` throws InvalidCharacterError exactly on a string with a code above 0xFF, otherwise returns 4 characters per started 3-character group |
| `Base64.Atob` | components/VoiceInteraction.tsx:22 | `atob` succeeds exactly when decoding does and then returns a binary string whose codes are the decoded bytes; it throws only InvalidCharacterError |
| `Base64.DecodeRejectsForeignCharacter` | components/VoiceInteraction.tsx:22 | any character that is neither whitespace, '=' nor a base64 digit makes `atob` throw |
| `Base64.ForeignCharacterSurvivesStrip` | components/VoiceInteraction.tsx:22 | a non-whitespace character of the input is still present after whitespace is removed |
| `Base64.OctetsOfSextets` | components/VoiceInteraction.tsx:21-38 | reassembling the six-bit values of any byte sequence gives the bytes back |
| `Base64.DigitValuesOfDigitString` | components/VoiceInteraction.tsx:21-38 | reading back the digits written for six-bit values gives the values |
| `Base64.EncodingHasNoWhitespace` | components/VoiceInteraction.tsx:21-38 | `atob`'s whitespace removal leaves a `btoa` output whole |
| `Base64.StripPaddingAfterDigits` | components/VoiceInteraction.tsx:21-38 | padding removal drops exactly the '=' that complete a digit string to a multiple of four |
| `Base64.PaddingCompletesGroup` | components/VoiceInteraction.tsx:37 | the padding brings every encoding's digits to a multiple of four, and is only added after at least one digit |
| `Base64.StripEncoding` | components/VoiceInteraction.tsx:21-38 | what `atob` keeps of a `btoa` output after its two clean-up steps is exactly the digit string |
| `Base64.DecodeEncode` | components/VoiceInteraction.tsx:21-38 | decoding the encoding of any byte sequence, the empty one included, returns it |
| `Base64.AtobBtoa` | components/VoiceInteraction.tsx:21-38 | `atob(btoa(s)) == s` for every binary string, and `btoa` does not throw on it |
| `Codec.Encode` | components/VoiceInteraction.tsx:31-38 | `encode` never throws and equals the direct base64 encoding of its bytes, whatever the bytes |
| `Codec.EncodeLength` | components/VoiceInteraction.tsx:31-38 | `encode` yields 4 characters per started group of 3 bytes |
| `Codec.Decode` | components/VoiceInteraction.tsx:21-29 | `decode` throws exactly when `atob` throws, and otherwise agrees with the direct base64 decoding |
| `Codec.DecodeCharCodes` | components/VoiceInteraction.tsx:21-29 | `decode` yields one byte per character `atob` returns, byte i being character i's code |
| `Codec.DecodeEncode` | components/VoiceInteraction.tsx:21-38 | `decode(encode(bytes)) == bytes` for every byte sequence |
| `Pcm.Int16LE` | components/VoiceInteraction.tsx:89 | the sample read from two bytes is a 16-bit value whose two's-complement form is `lo + 256 * hi` |
| `Pcm.Int16LEOfBytes` | components/VoiceInteraction.tsx:142 | writing a 16-bit sample as two little-endian bytes and reading it back gives the sample |
| `Pcm.BytesOfInt16LE` | components/VoiceInteraction.tsx:89 | reading two bytes as a sample and writing it back gives the bytes |
| `Pcm.Int16View` | components/VoiceInteraction.tsx:89 | an `Int16Array` over a buffer has one sample per whole byte pair, sample k from bytes 2k and 2k+1 |
| `Pcm.Int16ViewLength` | components/AnalysisDisplay.tsx:45 | an odd trailing byte is not part of any sample: the view has `|bytes| / 2` samples |
| `Pcm.BytesLE` | components/VoiceInteraction.tsx:142 | `new Uint8Array(int16.buffer)` has two bytes per sample, little-endian |
| `Pcm.Int16ViewOfBytesLE` | components/VoiceInteraction.tsx:137-142 | viewing the bytes of an `Int16Array` as an `Int16Array` gives its samples back |
| `Pcm.BytesLEOfInt16View` | components/VoiceInteraction.tsx:89 | an even-length byte buffer is exactly the bytes of its `Int16Array` |
| `Pcm.ToFloat` | components/VoiceInteraction.tsx:95 | `sample / 32768.0` lies in [-1, 1) and times 32768 is the sample |
| `Pcm.ToFloatStrictlyMonotone` | components/AnalysisDisplay.tsx:51 | distinct samples give distinct floats, in the same order |
| `Pcm.Truncate` | components/VoiceInteraction.tsx:139 | rounding toward zero: the integer between 0 and x that is less than 1 away from x |
| `Pcm.ToInt16` | components/VoiceInteraction.tsx:139 | the stored sample is 16-bit and congruent to the truncated product modulo 2^16 |
| `Pcm.ToInt16InRange` | components/VoiceInteraction.tsx:139 | a product whose truncation fits 16 bits is stored truncated, unclamped |
| `Pcm.ToInt16OfFullScale` | components/VoiceInteraction.tsx:139 | a full-scale input of 1.0 is stored as -32768 |
| `Pcm.CaptureQuantisation` | components/VoiceInteraction.tsx:138-140 | an input strictly inside (-1, 1) comes back from the stored sample less than 1/32768 away, rounded toward zero |
| `AudioData.Duration` | components/VoiceInteraction.tsx:169 | a buffer's duration is positive and equals its frames divided by its rate |
| `AudioData.FrameIndexInBounds` | components/VoiceInteraction.tsx:91-95 | for every frame `createBuffer` keeps (`i` below the truncated frame count), the index `i * numChannels + channel` lies inside the samples |
| `AudioData.AllFramesInBounds` | components/VoiceInteraction.tsx:91-95 | the same for all kept frames of one channel at once |
| `AudioData.FractionalFrameCount` | components/VoiceInteraction.tsx:90-95 | when the channels do not divide the samples, the real `frameCount` exceeds the frames kept, so the loop runs once more, and the last channel's read in that iteration lies past the data |
| `AudioData.Deinterleave` | components/VoiceInteraction.tsx:92-97 | one channel of interleaved samples has one float in [-1, 1) per whole frame, and frame i times 32768 is sample `i * numChannels + channel` |
| `AudioData.Deinterleaved` | components/VoiceInteraction.tsx:92-97 | the buffer has numChannels channels of `samples / numChannels` frames each |
| `AudioData.DecodeAudioData` | components/VoiceInteraction.tsx:88-99 | throws RangeError exactly on odd data; succeeds exactly on even data with a channel, a whole frame and a valid rate, giving a well-formed buffer with samples in [-1, 1), the given rate and channel count and `|data| / 2 / numChannels` frames |
| `AudioData.DecodeAudioDataFrames` | components/VoiceInteraction.tsx:90-91 | the frames use every whole frame of the samples and no more |
| `AudioData.DecodeAudioDataSample` | components/VoiceInteraction.tsx:92-97 | channel c, frame i holds the little-endian sample at interleaved index `i * numChannels + c`, divided by 32768 |
| `AudioData.MonoSamples` | components/AnalysisDisplay.tsx:45-52 | `playPcm` takes one float in [-1, 1) per whole byte pair, ignoring an odd trailing byte; float i times 32768 is the little-endian 16-bit value of bytes 2i and 2i+1 |
| `AudioData.MonoSample` | components/AnalysisDisplay.tsx:49-52 | `playPcm`'s sample i is the little-endian pair at bytes 2i and 2i+1, divided by 32768 |
| `AudioData.MonoBuffer` | components/AnalysisDisplay.tsx:45-47 | `createBuffer` throws NotSupportedError exactly when there is no whole sample; otherwise a one-channel, 24 kHz buffer of `|bytes| / 2` frames in [-1, 1) |
| `AudioData.DecodersAgreeOnEvenData` | components/VoiceInteraction.tsx:88-99 | on even data, the voice decoder with one channel at 24 kHz and `playPcm`'s buffer are the same, including their errors |
| `AudioData.DecodersDisagreeOnOddData` | components/AnalysisDisplay.tsx:45-46 | on odd data of at least 3 bytes, the voice decoder throws RangeError while `playPcm` plays the whole pairs |
| `Capture.Quantise` | components/VoiceInteraction.tsx:136-140 | a captured block keeps its length, every sample is a 16-bit value, and sample i agrees modulo 2^16 with input i times 32768 truncated toward zero |
| `Capture.CaptureChunk` | components/VoiceInteraction.tsx:134-143 | a sent block is tagged `audio/pcm;rate=16000` and its data decodes to two bytes per input sample |
| `Capture.CaptureChunkSamples` | components/VoiceInteraction.tsx:137-142 | the receiver of a block, decoding it and viewing it as 16-bit samples, finds exactly the quantised block |
| `Capture.QuantiseSample` | components/VoiceInteraction.tsx:139 | sample i is ToInt16 of input i times 32768, which is the plain truncation when it fits |
| `Capture.CaptureChunkLength` | components/VoiceInteraction.tsx:142 | a block of l samples is sent as `4 * ceil(2l / 3)` base64 characters |
| `Capture.SampleError` | components/VoiceInteraction.tsx:139 | a quantised sample read back as a float is within 1/32768 of an input strictly inside (-1, 1) |
| `Capture.DecodedBlockSample` | components/VoiceInteraction.tsx:134-144 | bytes whose view is a quantised block decode, as one channel, to floats within 1/32768 of the block |
| `Capture.CaptureThenDecode` | components/VoiceInteraction.tsx:134-144 | a non-empty block strictly inside (-1, 1), sent and then decoded as one-channel audio, comes back sample by sample within 1/32768 |
| `Playback.InitialValid` | components/VoiceInteraction.tsx:47-48 | the queue as mounted is chained, tracked and silent |
| `Playback.Schedule` | components/VoiceInteraction.tsx:164-170 | a chunk starts at the later of the cursor and the context time, the cursor moves past it by its duration, a fresh node is started there and joins the set, and earlier sources are kept |
| `Playback.Interrupt` | components/VoiceInteraction.tsx:173-180 | an interruption empties the set, puts the cursor to 0, only appends to the effects, and stops exactly the tracked nodes |
| `Playback.StopAll` | components/VoiceInteraction.tsx:199-200 | stopping the session empties the set, keeps the cursor, only appends to the effects, and stops exactly the tracked nodes |
| `Playback.LiveAfterStops` | components/VoiceInteraction.tsx:175-178 | stopping every node of the set leaves playing what played before minus the set |
| `Playback.InterruptSilences` | components/VoiceInteraction.tsx:173-180 | after an interruption of a valid queue nothing it started is still playing |
| `Playback.StopAllSilences` | components/VoiceInteraction.tsx:199-200 | after stopping the session nothing the queue started is still playing |
| `Playback.ScheduleValid` | components/VoiceInteraction.tsx:164-170 | scheduling keeps the queue chained (no overlap, within the cursor) and tracked, adding exactly the new node to what plays |
| `Playback.InterruptIdempotent` | components/VoiceInteraction.tsx:173-180 | interrupting twice is interrupting once |
| `Playback.ScheduleAfterInterrupt` | components/VoiceInteraction.tsx:164-179 | after an interruption the next chunk starts at the current context time |
| `Playback.ScheduleAfterStopAll` | components/VoiceInteraction.tsx:164-200 | after a stop the cursor survives, so a chunk arriving before it starts at the old cursor |
| `Playback.ConsecutiveChunks` | components/VoiceInteraction.tsx:164-169 | a second chunk never starts before the first ends, and starts exactly at its end when it arrives before then |
| `Playback.Run` | components/VoiceInteraction.tsx:160-171 | scheduling a series of chunks adds one source per chunk and keeps the earlier ones |
| `Playback.BurstIsGapless` | components/VoiceInteraction.tsx:164-169 | chunks each of which arrives no later than its slot (the old cursor plus the durations of the chunks before it) play back to back: chunk k starts at its slot and the cursor ends past them all |
| `Playback.BurstAfterInterrupt` | components/VoiceInteraction.tsx:163-179 | after an interruption a burst plays from its first chunk's arrival: chunk k starts at that time plus the durations before it, when every chunk arrives by its slot |
| `Transcript.AppendUser` | components/VoiceInteraction.tsx:149-150 | an input transcription adds one user entry with its text at the end and keeps the rest |
| `Transcript.AppendAgent` | components/VoiceInteraction.tsx:151-157 | an output transcription extends the last entry when it is the agent's (keeping its key) and otherwise appends a new agent entry; either way the last entry is the agent's and the rest is kept |
| `Transcript.AppendKeepsText` | components/VoiceInteraction.tsx:149-157 | each fragment adds exactly its text to the conversation: nothing is lost, duplicated or reordered |
| `Transcript.AppendPreservesNoAdjacentAi` | components/VoiceInteraction.tsx:149-157 | neither kind of fragment leaves two adjacent agent entries |
| `Transcript.OnTranscriptionPreservesNoAdjacentAi` | components/VoiceInteraction.tsx:149-158 | the transcript step of a message never splits agent speech |
| `Transcript.OnTranscription` | components/VoiceInteraction.tsx:149-157 | the transcript step adds at most one entry, and the conversation's text grows by exactly the input transcription, else the output one, else nothing |
| `Transcript.AgentRunIsOneEntry` | components/VoiceInteraction.tsx:151-157 | agent fragments after a user entry become one agent entry holding their concatenation |
| `Transcript.ExampleConversation` | components/VoiceInteraction.tsx:149-157 | "hi" from the user then "hello" and " there" from the agent give a user entry and an agent entry "hello there" |
| `Transcript.InputWins` | components/VoiceInteraction.tsx:149-151 | a message with both transcriptions records only the input one |
| `VoiceSession.StartSession` | components/VoiceInteraction.tsx:101-189 | nothing happens when active; otherwise two distinct contexts are created, connecting is set exactly when the microphone is granted, and the stream is held when granted |
| `VoiceSession.Open` | components/VoiceInteraction.tsx:128-133 | on open the session is active, no longer connecting, capturing through a processor, and nothing but those fields and the handle supply changes |
| `VoiceSession.CaptureBlock` | components/VoiceInteraction.tsx:134-144 | a block is sent exactly while capturing; nothing else changes |
| `VoiceSession.PlayAudio` | components/VoiceInteraction.tsx:160-171 | a malformed payload throws InvalidCharacterError, an odd byte count RangeError, an empty one NotSupportedError; any other payload (even, at least two bytes) starts one new node at the later of the cursor and the context time, lasting bytes/2 / 24000 seconds, moves the cursor to its end and keeps the earlier nodes |
| `VoiceSession.OnMessage` | components/VoiceInteraction.tsx:148-181 | the transcript is updated first; a decoding throw leaves playback unchanged and skips the interruption; otherwise an interruption flushes the queue and resets the cursor; nothing else changes |
| `VoiceSession.FalsyAudioIsSkipped` | components/VoiceInteraction.tsx:160-161 | a message without audio, with empty audio, or arriving with no output context schedules nothing; only its interruption touches the queue |
| `VoiceSession.ReleasesOf` | components/VoiceInteraction.tsx:195-198 | the stream's tracks are stopped, the processor disconnected and both contexts closed exactly when the refs hold them |
| `VoiceSession.Stop` | components/VoiceInteraction.tsx:192-201 | stopping turns both flags off, ends capture, releases what the refs hold, stops all nodes, keeps the refs and the cursor |
| `VoiceSession.StopTwiceRepeatsReleases` | components/VoiceInteraction.tsx:192-201 | a second stop issues the same releases again |
| `VoiceSession.Next` | components/VoiceInteraction.tsx:205-233 | the round button does nothing while connecting and stops an active session; the trash button, shown only while active, empties the transcript and otherwise changes nothing |
| `VoiceSession.InitialInv` | components/VoiceInteraction.tsx:41-50 | the mounted component satisfies the session invariant |
| `VoiceSession.OnMessagePreservesInv` | components/VoiceInteraction.tsx:148-181 | every message keeps the queue chained and tracked and agent speech unsplit |
| `VoiceSession.NextPreservesInv` | components/VoiceInteraction.tsx:101-233 | every event keeps the session never both active and connecting, capturing exactly while active, the queue valid, agent speech unsplit |
| `VoiceSession.StopSilences` | components/VoiceInteraction.tsx:192-201 | after a stop nothing the session scheduled is still playing |
| `VoiceSession.OddPayloadChangesNoPlayback` | components/VoiceInteraction.tsx:160-164 | a payload decoding to an odd byte count throws RangeError and leaves playback unchanged, interruption or not |
| `VoiceSession.OwnAudioIsInterrupted` | components/VoiceInteraction.tsx:160-180 | audio and an interruption in one message: the chunk is started, then stopped, and nothing plays |
| `VoiceSession.StartThenOpen` | components/VoiceInteraction.tsx:101-133 | a granted start is connecting; after open it is active and capturing with the contexts and stream held |
| `VoiceSession.ChunkThenStop` | components/VoiceInteraction.tsx:160-201 | a chunk into an empty queue starts at once; the button then stops everything, leaving the cursor past the chunk |
| `VoiceSession.EncodedPayloadDecodes` | components/VoiceInteraction.tsx:21-38 | every encoded byte sequence decodes back, and is non-empty exactly when the bytes are |
| `OneShot.PcmBytes` | components/AnalysisDisplay.tsx:28-32 | the bytes exist exactly when `atob` succeeds, one per character, byte i being character i's code, i.e. the base64-decoded bytes; otherwise InvalidCharacterError |
| `OneShot.StopCurrent` | components/AnalysisDisplay.tsx:24-26 | the current source, if any, is stopped and stays recorded as current; nothing else changes |
| `OneShot.StartClip` | components/AnalysisDisplay.tsx:28-58 | succeeds exactly when `atob` succeeds with at least one whole sample; then a fresh node starts at once and becomes current; a throw changes nothing but possibly creating the context |
| `OneShot.PlayPcm` | components/AnalysisDisplay.tsx:22-59 | the previous source is stopped first; on success the new node is current and its start is the last effect; on a throw the current source stays recorded |
| `OneShot.InitialOneCurrent` | components/AnalysisDisplay.tsx:19-20 | the module as loaded has nothing playing |
| `OneShot.StopCurrentSilences` | components/AnalysisDisplay.tsx:24-26 | after the stop nothing one-shot is playing |
| `OneShot.StartClipKeepsOneCurrent` | components/AnalysisDisplay.tsx:54-58 | starting from silence, exactly the new node plays on success and nothing on a throw |
| `OneShot.PlayPcmKeepsOneCurrent` | components/AnalysisDisplay.tsx:22-59 | every call keeps at most one clip playing, the current one; after success only the new node, after a throw none |
| `OneShot.ShortClipSilences` | components/AnalysisDisplay.tsx:45-46 | a payload with no whole sample stops the previous clip, throws NotSupportedError and leaves nothing playing |
| `OneShot.PlayedSamples` | components/AnalysisDisplay.tsx:45-52 | the clip now playing has `|bytes| / 2` samples, sample i the little-endian pair at 2i divided by 32768 |
| `AnalysisView.ScoreTone` | components/AnalysisDisplay.tsx:119 | rose exactly above 70, amber exactly in (30, 70], emerald exactly at 30 or below |
| `AnalysisView.ToneMonotone` | components/AnalysisDisplay.tsx:119 | a higher score is never shown in a milder tone |
| `AnalysisView.ScoreColor` | components/AnalysisDisplay.tsx:119 | the text colour is the score's tone |
| `AnalysisView.ScoreBg` | components/AnalysisDisplay.tsx:120 | the badge background is the score's tone |
| `AnalysisView.ColorAndBgAgree` | components/AnalysisDisplay.tsx:119-120 | text and background always show the same tone |
| `AnalysisView.BorderClass` | components/AnalysisDisplay.tsx:189 | the persona card border is rose exactly in the rose tone, sky otherwise |
| `AnalysisView.StatusLabel` | components/AnalysisDisplay.tsx:231 | "Requires Attention" exactly above 70, "Pristine State" exactly below 30, "Balanced Stock" exactly in [30, 70] |
| `AnalysisView.LabelMatchesToneExceptAt30` | components/AnalysisDisplay.tsx:119-231 | label and colour agree at every score but 30, which is emerald yet "Balanced Stock" |
| `AnalysisView.DashOffset` | components/AnalysisDisplay.tsx:219 | the drawn part of the 502-unit ring is the score's percentage of it, and the offset lies in [0, 502] for scores in [0, 100] |
| `AnalysisView.DashOffsetAntitone` | components/AnalysisDisplay.tsx:219 | a higher score draws more of the ring |
| `AnalysisView.ScoreFromDashOffset` | components/AnalysisDisplay.tsx:219 | the score can be read back off the dash offset |
| `AnalysisView.Toggle` | components/AnalysisDisplay.tsx:133 | a click selects the marker unless it is the selected one, which it deselects |
| `AnalysisView.ToggleTwice` | components/AnalysisDisplay.tsx:133 | two clicks on one marker restore the selection exactly when nothing or that marker was selected, and leave nothing selected exactly when it was not that marker |
| `AnalysisView.AutoSelect` | components/AnalysisDisplay.tsx:66-71 | new results with items select the first; otherwise the selection is left alone |
| `AnalysisView.AutoSelectThenToggle` | components/AnalysisDisplay.tsx:66-71 | the timer firing again changes nothing, and clicking the first marker after it opened closes it |
| `AnalysisView.HandleSpeakItem` | components/AnalysisDisplay.tsx:73-80 | a request is ignored without results or while another is in flight; it goes out exactly for an existing item, marks it speaking and sends its roast |
| `AnalysisView.SpeechSettled` | components/AnalysisDisplay.tsx:80-87 | whatever happened, the speaking mark is cleared; returned audio is played, a throw swallowed |
| `AnalysisView.OneSpeechAtATime` | components/AnalysisDisplay.tsx:73-77 | while one item is being voiced a second request changes nothing and sends nothing |
| `AnalysisView.SettledAllowsNext` | components/AnalysisDisplay.tsx:75-87 | once a request settles, the next one for an existing item goes out |
| `AnalysisView.SpeechSettledKeepsOneCurrent` | components/AnalysisDisplay.tsx:80-87 | the view keeps at most one one-shot clip playing |

## Left out

- Network, model calls and prompts are not modelled: creating the `GoogleGenAI`
  client, `live.connect`, the speech-synthesis call behind the "Hear Roasting"
  button (its service is not part of this model), the system instruction text
  and the persona and language enums. Server messages and synthesised speech enter as
  parameters.
- A rejected `connect` is left out: it raises no callback, so it is not an
  event of the model. The same holds for a throwing client constructor. The
  promise is not awaited inside the `try`, so after a rejection `isConnecting`
  stays true and the round button stays disabled for good.
- Stopping does not close the live session: `stopSession` never calls the
  session's `close`. Server messages that arrive after a stop are still handled
  (`VoiceSession.Next` takes `Received` in any state); their audio reaches a
  closed output context, whose scheduling is modelled like any other.
- Web Audio devices are abstract handles and effects:
  - `createMediaStreamSource`, `connect` to the destination, and the
    `resume()` of a suspended context are not effects of the model.
  - The contexts' clocks enter as the `now` parameter.
  - `getUserMedia` is the user's answer, `micGranted`.
- Numbers are exact reals, not IEEE doubles. `/ 32768` and `* 32768` are exact
  for these values, but NaN, infinities and the rounding of other arithmetic
  are not modelled.
- `Pcm.ToInt16` is defined on finite numbers only. NaN and infinities map to 0
  in ECMAScript and have no real counterpart.
- Float32 storage of channel data is not modelled. Every stored sample
  `k / 32768` is exactly representable, so nothing is lost.
- Concurrency is not modelled:
  - `async` interleavings and stale closures are left out. `isActive` is read
    from a closure and assumed current; the session promise's `then` is taken
    as immediate.
  - The one-second auto-select timer and its cancellation are left out.
    `AnalysisView.AutoSelect` is the effect once the timer fires.
- Platform byte order is not modelled: little-endian order is assumed for
  `Int16Array` views, as on every browser platform.
- `createBuffer`'s upper limit on the channel count is not modelled; the voice
  component always asks for one channel.
- `AudioData.ValidRate`: the rate bounds follow the Web Audio API's
  `createBuffer` (3000 to 768000 Hz). Both players only use 24000.
- Entry keys are `Date.now()` in decimal, with "-ai" for agent entries. They
  are modelled as the millisecond stamp tagged with its kind, not as strings.
- Rendering is left out: layout, scrolling the history into view, icons, and
  the marker colour classes by health impact.
- The recipe panel's expand/collapse state is left out. It changes no data.
- `App.tsx`, `app/page.tsx`, `components/Scanner.tsx`,
  `components/PersonaSelector.tsx` and `services/geminiService.ts` are not part
  of this model. They take the photo, pick the persona and request the
  analysis (`analyzeFridge`); the model starts from the analysis record, and
  the speech payload enters as a parameter.
- `VoiceSession.Message` assumes a transcription's text is present whenever its
  transcription object is. The source branches on the object and then reads
  its optional `.text`: an input transcription without text appends a user
  entry with undefined text (and still shadows an output transcription in the
  same message), and an output one without text appends the string
  "undefined" to the agent entry. The model has no undefined text, so it
  treats such an object as absent.
- `AudioData.FrameIndexInBounds` and `AudioData.Deinterleave` follow the buffer
  `createBuffer` builds, not the loop as written. In the source `frameCount` is
  `samples / numChannels` as a real number. When the channels do not divide the
  sample count, `createBuffer` truncates it, but the loop `i < frameCount` runs
  once more at `i = floor(frameCount)`. That iteration reads
  `dataInt16[i * numChannels + channel]`, which is past the data (NaN) for the
  last channel, and its write past the channel's end is dropped. The buffer is
  therefore the one modelled; `AudioData.FractionalFrameCount` states the extra
  iteration and the out-of-range read.
- `VoiceSession.Open` does not record that the processor handle is fresh.
  Handles are never compared except for the two contexts.
