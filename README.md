# TextToSpeech page: chat transcript and exclusive playback

This project models the state machine inside the `TextToSpeech` page component of a
small Next.js client. The page turns typed text into speech through a remote synthesis
service and shows each exchange in a chat transcript. The model covers:

- **The transcript.** `messages` is an ordered list of `user`, `loading`, `bot` and
  `error` entries. `handleSend` ignores blank input (JavaScript's `trim`, with its full
  set of white characters). Otherwise it appends the user entry and a loading entry,
  clears the input and sets `isLoading`. When the request settles, the last entry gives
  way to a `bot` entry or to the fixed `error` entry, and `isLoading` is cleared.
  `handleNewChat` wipes the transcript, the input and the audio registry.
- **The playback coordinator.** `currentlyPlaying` and the registry of audio elements
  (`audioRefs.current`, each element reduced to its `paused` flag) are driven by
  `handlePlayPause`, `handleAudioEnded`, `handleNewChat` and the ref callback that
  registers a bot entry's element.
- **The request.** The voice catalog, the default voice and the JSON body posted to
  the synthesis endpoint.

Layout:

- `wrappers.dfy`: `Option`.
- `whitespace.dfy`: `trim` and the blank-input test.
- `transcript.dfy`: the `Message` type and the two array updates, built from spreads
  and `slice(0, -1)`.
- `voices.dfy`: the catalog and the request body.
- `playback.dfy`: the coordinator as functions on the registry and `currentlyPlaying`.
- `session.dfy`: the whole page state as a value. It has one function per handler, the
  event guards of the Enter key and the send button, runs of events, the invariants and
  the lemmas about them.
- `page.dfy`: the component as a class. Its fields are the React state and the
  registry. Each handler is a method, and the method's new state is what the matching
  `session.dfy` function gives. `HandleNewChat` pauses the registered clips one by one
  in a loop, as the `forEach` does.

The model follows the code, including where the code is weaker than a careful design
would be. A design with a `Busy` error inside the send, a settle that replaces only a
pending tail, and an ended handler that checks which clip ended would be stricter. The
code has none of these checks. The model states what the code actually guarantees and
proves each gap as a lemma:

- `Session.UnguardedSendPendsTwice`: the double-submit guard exists only at the two
  call sites.
- `Session.LateSettleAfterNewChat`: a settle that arrives after New Chat puts a lone
  bot entry into the cleared transcript.
- `Playback.StaleEndAllowsTwoAudible`: a late ended event clears `currentlyPlaying`
  while another clip plays, and two clips can then play at once.

## Model

| member | source | states |
|---|---|---|
| Whitespace.TrimStart | app/page.tsx:69 | the result is the suffix of the input that starts at its first non-white character; everything dropped is white |
| Whitespace.TrimEnd | app/page.tsx:69 | the result is the prefix of the input that ends at its last non-white character; everything dropped is white |
| Whitespace.IsBlank | app/page.tsx:69 | `!inputText.trim()` holds exactly when every character of the input is a JavaScript white-space or line-terminator character |
| Transcript.PayloadRoundTrip | app/page.tsx:102 | the base64 payload read back from the stored `data:audio/mp3;base64,` URI is the response's `audioStream` unchanged |
| Transcript.DropLast | app/page.tsx:105 | `slice(0, -1)` is the prefix without the last entry, and an empty list stays empty |
| Transcript.Resolution | app/page.tsx:101-109 | on success the new entry is a bot entry with the fresh id whose content gives back the response's `audioStream` unchanged; on failure it is the error entry with the fixed message; with a non-empty id it is well formed |
| Transcript.Settled | app/page.tsx:105-109 | `[...prev.slice(0, -1), resolved]` keeps the length and every earlier entry and puts the resolution last, whatever the last entry was; an empty transcript becomes the resolution alone |
| Transcript.Submitted | app/page.tsx:73-75 | a submission keeps every entry and appends exactly the user entry with the text and then a loading entry |
| Transcript.SubmitThenSettle | app/page.tsx:75-109 | the settle replaces exactly the loading entry the submission added: the transcript ends with the user text and its resolution |
| Transcript.AtMostOnePending | app/page.tsx:75 | when loading entries occur only at the tail, there is at most one |
| Transcript.SubmittedShape | app/page.tsx:73-75 | submitting onto a transcript with no loading entry gives one whose only loading entry is its tail, after a user entry, with all entries well formed |
| Transcript.SettledShape | app/page.tsx:101-109 | settling such a transcript with a non-empty id leaves no loading entry and keeps every entry well formed |
| Voices.LabelOf | app/page.tsx:21-29 | a name has a label exactly when the catalog lists it, and the label is the one listed with it |
| Voices.LabelIn | app/page.tsx:21-29 | lookup in a voice list: found exactly when some entry has the name, and then that entry's label is returned |
| Voices.CatalogWellFormed | app/page.tsx:21-34 | the catalog's voice names are pairwise distinct, and the default `mrbeast` is listed as "Mr Beast" |
| Voices.RequestFor | app/page.tsx:86-93 | the body carries the text as its one paragraph chunk and the selected voice verbatim, always with `audioFormat: "mp3"` |
| Voices.RequestCarriesInputs | app/page.tsx:86-93 | distinct texts or voices give distinct bodies, so the body determines both inputs |
| Playback.PlayPause | app/page.tsx:48-62 | any other current clip is paused first; a paused target plays and becomes current; a playing one is paused and nothing is current; for an id with no element the handler throws, so `currentlyPlaying` is untouched; no other clip changes and no clip is registered or dropped |
| Playback.PlayPauseKeepsExclusive | app/page.tsx:48-62 | handlePlayPause, for any id, keeps "every registered clip other than `currentlyPlaying` is paused" |
| Playback.ExclusiveMeansAtMostOne | app/page.tsx:48-62 | under that rule at most one clip is audible |
| Playback.PlayThenPlayOther | app/page.tsx:48-62 | under the rule, clicking a paused A and then B leaves B playing and current, and A paused, also when B was the clip playing before |
| Playback.PlayThenPauseSame | app/page.tsx:55-61 | a second click on the playing clip pauses it and leaves nothing current |
| Playback.Ended | app/page.tsx:64-66 | handleAudioEnded sets `currentlyPlaying` to null and starts or stops no clip |
| Playback.EndedIgnoresId | app/page.tsx:64-66 | handleAudioEnded gives the same state whatever id it gets: `currentlyPlaying` is null and the registry is unchanged |
| Playback.EndedExclusiveIffSilent | app/page.tsx:64-66 | after handleAudioEnded the single-playback rule holds exactly when no clip was playing |
| Playback.NaturalEndKeepsExclusive | app/page.tsx:186-191 | when the playing clip reaches its end and its ended event arrives, nothing plays and the rule holds |
| Playback.ReachEnd | app/page.tsx:186-191 | a clip that plays to its end is paused by the browser; no other clip and not `currentlyPlaying` changes |
| Playback.ReachEndKeepsExclusive | app/page.tsx:186-191 | the browser pausing a clip at its end keeps the rule |
| Playback.StaleEndAllowsTwoAudible | app/page.tsx:51-66 | an ended event for A that arrives while B plays clears `currentlyPlaying`; a click on a paused C then leaves B and C both playing |
| Playback.Attach | app/page.tsx:187 | the ref callback registers the id; a new element starts paused and a re-attached one is left as it is, so no clip starts or stops |
| Playback.AttachKeepsExclusive | app/page.tsx:187 | registering a bot entry's element keeps the rule; a newly registered clip is paused |
| Playback.AllPaused | app/page.tsx:128 | `forEach(audio => audio.pause())` leaves the same clips registered, every one paused |
| Playback.Cleared | app/page.tsx:126-129 | New Chat leaves an empty registry and nothing current, so nothing plays and the rule holds |
| Session.SessionState.HandleSend | app/page.tsx:68-93 | blank input posts no request and changes no state; otherwise every entry is kept, user(text) and loading are appended, the input is cleared, `isLoading` is set, playback and the voice are left alone, and the raw text is posted with the selected voice |
| Session.SessionState.KeyDown | app/page.tsx:209 | a request is posted exactly when the key is Enter, nothing is in flight and the input is not blank, and then the transcript grows by two; otherwise nothing changes |
| Session.SessionState.SendClick | app/page.tsx:224-229 | a click posts a request exactly when nothing is in flight and the input is not blank, and then the transcript grows by two; otherwise nothing changes |
| Session.UnguardedSendPendsTwice | app/page.tsx:68-77 | handleSend itself has no guard: called while a request is in flight, it appends a second pair, and two loading entries result |
| Session.SessionState.CompleteSend | app/page.tsx:101-112 | the settle puts the resolution last, keeps the length (one entry for an empty transcript) and every earlier entry, clears `isLoading` and changes nothing else |
| Session.SettleReplacesPending | app/page.tsx:101-111 | while a request is in flight the tail is the loading entry; the settle replaces exactly it, keeps the length and earlier entries, and clears `isLoading` |
| Session.LateSettleAfterNewChat | app/page.tsx:101-130 | New Chat leaves `isLoading` set; the late settle then appends a lone bot entry to the cleared transcript |
| Session.SessionState.NewChat | app/page.tsx:124-130 | New Chat gives an empty transcript, empty input, nothing current and an empty registry from any state; `isLoading` and the voice are kept; the result satisfies both invariants |
| Session.NewChatIdempotent | app/page.tsx:124-130 | applying New Chat twice equals applying it once |
| Session.Initial | app/page.tsx:31-37 | the page mounts with an empty transcript and input, nothing in flight, and the voice `mrbeast`, which the catalog lists; both invariants hold |
| Session.SessionState.Step | app/page.tsx:136-227 | the element wiring: only the voice picker changes the voice; the play button, the end of a clip, `onEnded` and the ref leave the transcript, the input and `isLoading` alone; typing, picking, submitting and settling leave playback alone; only an accepted submit sets `isLoading` and only a settle clears it |
| Session.StepKeepsValid | app/page.tsx:68-130 | every possible event keeps the transcript invariant: loading only at the tail after a user entry, a loading tail or an empty transcript while in flight, none when idle, and well-formed entries |
| Session.StepKeepsExclusive | app/page.tsx:48-130 | every possible event except a stale ended event keeps the single-playback rule |
| Session.RunKeepsValid | app/page.tsx:68-130 | every run of possible events keeps the transcript invariant |
| Session.RunKeepsExclusive | app/page.tsx:48-130 | every run of possible events whose ended events are fresh keeps the single-playback rule |
| Session.HelloWorldScenario | app/page.tsx:48-111 | "Hello world" with the narrator voice: the request body, a two-entry transcript user/bot, playing the clip makes it current, and its end clears that |
| Session.FailureScenario | app/page.tsx:68-111 | "Test" and a failed request: the transcript is user("Test") then the fixed error entry, and `isLoading` is cleared |
| Page.TextToSpeech.constructor | app/page.tsx:32-38 | the component mounts with an empty transcript and input, voice `mrbeast`, not loading, nothing playing and an empty registry |
| Page.TextToSpeech.SetInputText | app/page.tsx:208 | only the input changes |
| Page.TextToSpeech.SetSelectedVoice | app/page.tsx:212 | only the selected voice changes |
| Page.TextToSpeech.HandleSend | app/page.tsx:68-93 | the new state and the posted request are those of `SessionState.HandleSend`; from an idle valid state the invariant holds afterwards |
| Page.TextToSpeech.CompleteSend | app/page.tsx:101-112 | the new state is that of `SessionState.CompleteSend`, and the invariant is kept for a settle of the request in flight |
| Page.TextToSpeech.HandleKeyDown | app/page.tsx:209 | Enter while idle runs handleSend; any other key, or any key while loading, changes nothing; the invariants are kept |
| Page.TextToSpeech.HandleSendClick | app/page.tsx:224-229 | a click while idle runs handleSend; while loading nothing changes; the invariants are kept |
| Page.TextToSpeech.HandlePlayPause | app/page.tsx:48-62 | the new state is that of `SessionState.PlayPause`; it completes exactly when the id is registered; it keeps the single-playback rule |
| Page.TextToSpeech.HandleAudioEnded | app/page.tsx:64-66 | only `currentlyPlaying` changes, to null; the rule holds afterwards exactly when no clip was playing |
| Page.TextToSpeech.ClipReachedEnd | app/page.tsx:186-191 | the ended clip's element is paused and nothing else changes; the rule is kept |
| Page.TextToSpeech.AttachAudio | app/page.tsx:186-191 | the element is registered, paused, if it was not already; the invariants are kept for a bot entry's id |
| Page.TextToSpeech.HandleNewChat | app/page.tsx:124-130 | the loop pauses every registered clip (the returned map), then the registry is emptied along with the transcript, the input and `currentlyPlaying` |

## Left out

- The `fetch` call to the synthesis URL, its status check and `response.json()` (app/page.tsx:81-101) are network I/O. Their result enters the model as an `Outcome`: the `audioStream` or a failure. `console.error` logging is left out too.
- The audio payload is an opaque string that is only concatenated with the data-URI prefix. Base64 content is not modelled.
- `Date.now().toString()` (app/page.tsx:103) is wall-clock time and is not guaranteed unique. The fresh id is a parameter. `Session.SessionState.Possible` admits a settle only with an id that is non-empty, is no bot entry's id and is not registered. Runs where two bot entries get the same id are therefore outside `Session.RunKeepsExclusive`. In the source such a run can break the rule: the second element's ref (app/page.tsx:187) overwrites the registry entry with a new paused element while the old one may keep playing, and a click on the new one then starts a second clip. The model keeps one flag per id and does not capture this.
- `scrollToBottom`, `useEffect` and `messagesEndRef` (app/page.tsx:40-46) are DOM side effects.
- `handleDownload` (app/page.tsx:115-122) creates an anchor and saves a file named `speech.mp3`. That is DOM work with no state.
- JSX rendering is left out. Only the event wiring of the elements (which handler each one calls, `Session.SessionState.Step`) and the submit guards of the input and the button are modelled.
- React's batching and closure capture are left out: events are processed one at a time, and every handler sees the current state.
- React calls a ref callback with `null` when an element unmounts or the callback is replaced. While an element stays mounted, the `null` is followed at once by the element again, so the model keeps it registered. The model has no unmount event and no `null` entries in the registry.
- Page.TextToSpeech.HandleNewChat: the model always completes and leaves an empty registry. The source does not. Line 129 empties `audioRefs.current` before React unmounts the removed `<audio>` elements. The unmount then calls each one's ref callback (app/page.tsx:187) with `null`, so the registry maps every removed clip's id to `null`. The next New Chat throws a TypeError at line 128 when `forEach` reaches such an entry and calls `pause()` on `null`. Clips after that entry are not paused by the loop; they stop only because they leave the document. Line 129 is never reached, so the registry is not emptied. The model does not capture this failure.
- Session.SessionState.NewChat: has the same simplification. Its registry always becomes empty, and it never throws on a `null` entry left by an earlier New Chat.
- An `HTMLAudioElement` is reduced to its `paused` flag. `play()` is assumed to start playback, so a rejected play promise (autoplay policy) is not modelled. Reaching the end of a clip is the environment event `ClipReachedEnd`.
- `Session.SessionState.Possible` states what the environment guarantees of each event. A request settles only while one is in flight, and with a fresh id: non-empty, used by no bot entry and not registered. An element is attached only for a bot entry on display.
- Session.RunKeepsExclusive: proved only for runs whose ended events arrive while no clip plays. A late ended event breaks the rule, as `Playback.StaleEndAllowsTwoAudible` shows. It also covers only runs whose settles get fresh ids; a repeated `Date.now()` id can break the rule in the source, as the line on `Date.now()` above explains.
- app/layout.tsx is not part of this model. It holds page metadata, font setup and a third-party script, with no logic.
