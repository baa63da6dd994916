/** The TextToSpeech page component: its state, its event handlers and the invariants
    they keep. SessionState gives each handler as a function of the state; the class
    TextToSpeech holds the same state in fields that the handlers update. */
module Session {

  import opened Wrappers
  import opened Transcript
  import Whitespace
  import Voices
  import Playback

  /** The outcome of handleSend's synchronous part: the new state and, when the input
      was accepted, the request it posts. */
  datatype Sent = Sent(after: SessionState, request: Option<Voices.SynthesisRequest>)

  /** The events the page reacts to. */
  datatype Event =
    | Typed(text: string)                          // onChange of the input
    | VoicePicked(name: string)                    // onValueChange of the voice picker
    | KeyPressed(key: string)                      // onKeyDown of the input
    | SendClicked                                  // onClick of the send button
    | RequestSettled(outcome: Outcome, freshId: string)  // the posted request settles
    | PlayPauseClicked(id: string)                 // onClick of a bot entry's play button
    | EndReached(id: string)                       // the browser pauses a clip at its end
    | EndedNotified(id: string)                    // onEnded of a clip's audio element
    | AudioMounted(id: string)                     // the ref callback of a bot entry's audio element
    | NewChatClicked                               // onClick of "New Chat"

  datatype SessionState = SessionState(
    messages: seq<Message>,
    inputText: string,
    selectedVoice: string,
    isLoading: bool,
    currentlyPlaying: Option<string>,
    audios: map<string, bool>)
  {
    function Coordinator(): Playback.Player {
      Playback.Player(audios, currentlyPlaying)
    }

    function WithCoordinator(p: Playback.Player): SessionState {
      this.(audios := p.audios, currentlyPlaying := p.currentlyPlaying)
    }

    function SetInputText(text: string): SessionState {
      this.(inputText := text)
    }

    function SetSelectedVoice(name: string): SessionState {
      this.(selectedVoice := name)
    }

    /** handleSend up to the request: blank input (every character white) posts nothing
        and changes nothing; otherwise every entry is kept, the user entry and a loading
        entry are appended, the input is cleared, `isLoading` is set, playback and the
        voice are left alone, and the request carries the raw input and the selected
        voice. handleSend itself does not look at `isLoading`. */
    function HandleSend(): (r: Sent)
      ensures Whitespace.IsBlank(inputText) ==> r == Sent(this, None)
      ensures !Whitespace.IsBlank(inputText) ==>
        && r.request == Some(Voices.RequestFor(inputText, selectedVoice))
        && r.after.messages == messages + [UserEntry(inputText), LoadingEntry]
        && r.after.inputText == "" && r.after.isLoading
        && r.after.selectedVoice == selectedVoice && r.after.Coordinator() == Coordinator()
    {
      if Whitespace.IsBlank(inputText) then Sent(this, None)
      else
        Sent(this.(messages := Submitted(messages, inputText), inputText := "", isLoading := true),
             Some(Voices.RequestFor(inputText, selectedVoice)))
    }

    /** handleSend after the request settles: the last entry gives way to the resolution,
        every earlier entry is kept, `isLoading` is cleared and nothing else changes. */
    function CompleteSend(outcome: Outcome, freshId: string): (r: SessionState)
      ensures |r.messages| == if messages == [] then 1 else |messages|
      ensures r.messages[..|r.messages| - 1] == messages[..|r.messages| - 1]
      ensures r.messages[|r.messages| - 1] == Resolution(outcome, freshId)
      ensures !r.isLoading
      ensures r.inputText == inputText && r.selectedVoice == selectedVoice
      ensures r.Coordinator() == Coordinator()
    {
      this.(messages := Settled(messages, outcome, freshId), isLoading := false)
    }

    /** `e.key === 'Enter' && !isLoading && handleSend()`: a request is posted exactly
        when the key is Enter, nothing is in flight and the input is not blank, and then
        the transcript grows by the user/loading pair; otherwise nothing changes. */
    function KeyDown(key: string): (r: Sent)
      ensures r.request.Some? <==> key == "Enter" && !isLoading && !Whitespace.IsBlank(inputText)
      ensures r.request.None? ==> r.after == this
      ensures r.request.Some? ==> r == HandleSend()
      ensures |r.after.messages| == |messages| + (if r.request.Some? then 2 else 0)
    {
      if key == "Enter" && !isLoading then HandleSend() else Sent(this, None)
    }

    /** The send button is `disabled={isLoading}`: a click posts a request exactly when
        nothing is in flight and the input is not blank, and then the transcript grows by
        the user/loading pair; otherwise nothing changes. */
    function SendClick(): (r: Sent)
      ensures r.request.Some? <==> !isLoading && !Whitespace.IsBlank(inputText)
      ensures r.request.None? ==> r.after == this
      ensures r.request.Some? ==> r == HandleSend()
      ensures |r.after.messages| == |messages| + (if r.request.Some? then 2 else 0)
    {
      if !isLoading then HandleSend() else Sent(this, None)
    }

    function PlayPause(id: string): SessionState {
      WithCoordinator(Playback.PlayPause(Coordinator(), id))
    }

    function AudioEnded(id: string): SessionState {
      WithCoordinator(Playback.Ended(Coordinator(), id))
    }

    function ReachEnd(id: string): SessionState {
      WithCoordinator(Playback.ReachEnd(Coordinator(), id))
    }

    function AttachAudio(id: string): SessionState {
      WithCoordinator(Playback.Attach(Coordinator(), id))
    }

    /** handleNewChat: empty transcript and input, nothing current, empty registry, from
        any state. `isLoading` and the selected voice are left as they are. The result
        satisfies both invariants. */
    function NewChat(): (r: SessionState)
      ensures r.messages == [] && r.inputText == ""
      ensures r.currentlyPlaying == None && r.audios == map[]
      ensures r.isLoading == isLoading && r.selectedVoice == selectedVoice
      ensures r.Valid() && r.ExclusivePlayback()
    {
      this.(messages := [], inputText := "").WithCoordinator(Playback.Cleared(Coordinator()))
    }

    /** Which handler each event reaches, as the page's elements wire them. Only the
        voice picker changes the voice; playback events leave the transcript, the input
        and `isLoading` alone; input and transcript events leave playback alone; only an
        accepted submit sets `isLoading`, and only a settle clears it. */
    function Step(e: Event): (r: SessionState)
      ensures r.selectedVoice == if e.VoicePicked? then e.name else selectedVoice
      ensures e.PlayPauseClicked? || e.EndReached? || e.EndedNotified? || e.AudioMounted? ==>
        r.messages == messages && r.inputText == inputText && r.isLoading == isLoading
      ensures e.Typed? || e.VoicePicked? || e.KeyPressed? || e.SendClicked? || e.RequestSettled? ==>
        r.Coordinator() == Coordinator()
      ensures !isLoading && r.isLoading ==> e.KeyPressed? || e.SendClicked?
      ensures isLoading && !r.isLoading ==> e.RequestSettled?
    {
      match e
      case Typed(text) => SetInputText(text)
      case VoicePicked(name) => SetSelectedVoice(name)
      case KeyPressed(key) => KeyDown(key).after
      case SendClicked => SendClick().after
      case RequestSettled(outcome, freshId) => CompleteSend(outcome, freshId)
      case PlayPauseClicked(id) => PlayPause(id)
      case EndReached(id) => ReachEnd(id)
      case EndedNotified(id) => AudioEnded(id)
      case AudioMounted(id) => AttachAudio(id)
      case NewChatClicked => NewChat()
    }

    /** What the environment guarantees of an event: a request settles only while one is
        in flight (`isLoading` is set by the send and cleared only by the settle) and gets
        a non-empty id (`Date.now().toString()`); an audio element is mounted only for a
        bot entry on display. */
    ghost predicate Possible(e: Event) {
      match e
      case RequestSettled(_, freshId) =>
        isLoading && freshId != "" && !IsBotId(messages, freshId) && freshId !in audios
      case AudioMounted(id) => IsBotId(messages, id)
      case _ => true
    }

    /** The transcript invariant: loading entries only at the tail after a user entry;
        while a request is in flight the transcript is empty (after New Chat) or ends in
        the loading entry; when idle there is none; entries are well formed; no audio
        element is registered under the empty id. */
    ghost predicate Valid() {
      && PendingOnlyAtTail(messages)
      && WellFormed(messages)
      && (isLoading ==> messages == [] || messages[|messages| - 1].kind == Loading)
      && (!isLoading ==> NoPending(messages))
      && Playback.IdsNonEmpty(Coordinator())
    }

    ghost predicate ExclusivePlayback() {
      Playback.Exclusive(Coordinator())
    }
  }

  /** The state the page mounts with: an empty transcript and input, nothing in flight,
      the default voice, which the catalog lists, and both invariants holding. */
  function Initial(): (r: SessionState)
    ensures r.messages == [] && r.inputText == "" && !r.isLoading
    ensures r.selectedVoice == "mrbeast" && Voices.Listed(r.selectedVoice)
    ensures r.Valid() && r.ExclusivePlayback()
  {
    assert Voices.Catalog[0].name == "mrbeast";
    SessionState([], "", Voices.DefaultVoice, false, None, map[])
  }

  function Run(s: SessionState, events: seq<Event>): SessionState
    decreases |events|
  {
    if events == [] then s else Run(s.Step(events[0]), events[1..])
  }

  ghost predicate PossibleRun(s: SessionState, events: seq<Event>)
    decreases |events|
  {
    events == [] || (s.Possible(events[0]) && PossibleRun(s.Step(events[0]), events[1..]))
  }

  /** An ended event is fresh when it arrives with no clip playing, as it does when the
      clip that ended was the current one. */
  ghost predicate FreshRun(s: SessionState, events: seq<Event>)
    decreases |events|
  {
    events == [] ||
    ((events[0].EndedNotified? ==> Playback.Silent(s.Coordinator())) && FreshRun(s.Step(events[0]), events[1..]))
  }

  // ---- Submitting ----

  /** handleSend has no guard of its own: called directly while a request is in flight
      with new non-blank input, it appends a second user/loading pair, and the transcript
      then holds two loading entries. Only the call sites prevent this. */
  lemma UnguardedSendPendsTwice(s: SessionState, text: string)
    requires s.Valid() && !s.isLoading && !Whitespace.IsBlank(s.inputText)
    requires !Whitespace.IsBlank(text)
    ensures s.HandleSend().after.SetInputText(text).KeyDown("Enter").request == None
    ensures s.HandleSend().after.SetInputText(text).HandleSend().request.Some?
    ensures !PendingOnlyAtTail(s.HandleSend().after.SetInputText(text).HandleSend().after.messages)
  {
    var ms := s.HandleSend().after.SetInputText(text).HandleSend().after.messages;
    var n := |s.messages|;
    assert ms[n + 1].kind == Loading && n + 1 != |ms| - 1;
  }

  // ---- Settling ----

  /** While a request is in flight the transcript ends in its loading entry; the settle
      replaces exactly that entry, keeps the length and the earlier entries, and clears
      `isLoading`. */
  lemma SettleReplacesPending(s: SessionState, outcome: Outcome, freshId: string)
    requires s.Valid() && s.isLoading && s.messages != []
    ensures |s.CompleteSend(outcome, freshId).messages| == |s.messages|
    ensures s.messages[|s.messages| - 1] == LoadingEntry
    ensures s.CompleteSend(outcome, freshId).messages ==
      s.messages[..|s.messages| - 1] + [Resolution(outcome, freshId)]
    ensures !s.CompleteSend(outcome, freshId).isLoading
  {
    assert WellFormedEntry(s.messages[|s.messages| - 1]);
  }

  /** The settle has no staleness check: when New Chat is clicked while a request is in
      flight, the late settle appends its resolution to the cleared transcript, which then
      holds a bot entry answering no user entry. */
  lemma LateSettleAfterNewChat(s: SessionState, audioStream: string, freshId: string)
    requires !s.isLoading && !Whitespace.IsBlank(s.inputText)
    ensures s.HandleSend().after.NewChat().messages == []
    ensures s.HandleSend().after.NewChat().isLoading
    ensures s.HandleSend().after.NewChat().CompleteSend(Synthesized(audioStream), freshId).messages
      == [Message(Some(freshId), Bot, Some(AudioUriPrefix + audioStream))]
  {
  }

  // ---- New chat ----

  /** Doing New Chat twice is doing it once. */
  lemma NewChatIdempotent(s: SessionState)
    ensures s.NewChat().NewChat() == s.NewChat()
  {
  }

  // ---- Invariants over runs ----

  /** Every event the page can receive keeps the transcript invariant. */
  lemma StepKeepsValid(s: SessionState, e: Event)
    requires s.Valid() && s.Possible(e)
    ensures s.Step(e).Valid()
  {
    match e
    case KeyPressed(key) =>
      if s.KeyDown(key).request.Some? {
        SubmittedShape(s.messages, s.inputText);
      }
    case SendClicked =>
      if s.SendClick().request.Some? {
        SubmittedShape(s.messages, s.inputText);
      }
    case RequestSettled(outcome, freshId) =>
      SettledShape(s.messages, outcome, freshId);
    case AudioMounted(id) =>
      var i :| 0 <= i < |s.messages| && s.messages[i].kind == Bot && s.messages[i].id == Some(id);
      assert WellFormedEntry(s.messages[i]);
    case _ =>
  }

  /** Every event except a stale ended notification keeps the single-playback rule. */
  lemma StepKeepsExclusive(s: SessionState, e: Event)
    requires s.Valid() && s.ExclusivePlayback() && s.Possible(e)
    requires e.EndedNotified? ==> Playback.Silent(s.Coordinator())
    ensures s.Step(e).ExclusivePlayback()
  {
    var p := s.Coordinator();
    match e
    case PlayPauseClicked(id) =>
      Playback.PlayPauseKeepsExclusive(p, id);
    case EndReached(id) =>
      Playback.ReachEndKeepsExclusive(p, id);
    case EndedNotified(id) =>
      Playback.EndedExclusiveIffSilent(p, id);
    case AudioMounted(id) =>
      var i :| 0 <= i < |s.messages| && s.messages[i].kind == Bot && s.messages[i].id == Some(id);
      assert WellFormedEntry(s.messages[i]);
      Playback.AttachKeepsExclusive(p, id);
    case _ =>
  }

  /** From the mounted page, every run of possible events keeps the transcript invariant. */
  lemma {:induction false} RunKeepsValid(s: SessionState, events: seq<Event>)
    requires s.Valid() && PossibleRun(s, events)
    ensures Run(s, events).Valid()
    decreases |events|
  {
    if events != [] {
      StepKeepsValid(s, events[0]);
      RunKeepsValid(s.Step(events[0]), events[1..]);
    }
  }

  /** Every run of possible events whose ended notifications are all fresh keeps the
      single-playback rule: at most one clip is ever audible. */
  lemma {:induction false} RunKeepsExclusive(s: SessionState, events: seq<Event>)
    requires s.Valid() && s.ExclusivePlayback() && PossibleRun(s, events) && FreshRun(s, events)
    ensures Run(s, events).ExclusivePlayback()
    decreases |events|
  {
    if events != [] {
      StepKeepsValid(s, events[0]);
      StepKeepsExclusive(s, events[0]);
      RunKeepsExclusive(s.Step(events[0]), events[1..]);
    }
  }

  // ---- Scenarios ----

  /** Type "Hello world", pick the narrator, press Enter, the request succeeds, the clip
      mounts and is played, then plays to its end. */
  lemma HelloWorldScenario(audioStream: string, x: string)
    requires x != ""
    ensures
      var s1 := Initial().SetInputText("Hello world").SetSelectedVoice("narrator").KeyDown("Enter");
      var s2 := s1.after.CompleteSend(Synthesized(audioStream), x).AttachAudio(x);
      var s3 := s2.PlayPause(x);
      var s4 := s3.ReachEnd(x).AudioEnded(x);
      && s1.request == Some(Voices.SynthesisRequest("mp3", ["Hello world"],
                                Voices.VoiceParams("narrator", "speechify", "en-US")))
      && s2.messages == [UserEntry("Hello world"), Message(Some(x), Bot, Some(AudioUri(audioStream)))]
      && s3.currentlyPlaying == Some(x) && Playback.Audible(s3.Coordinator(), x)
      && s4.currentlyPlaying == None && !Playback.Audible(s4.Coordinator(), x)
  {
    var t := "Hello world";
    assert !Whitespace.IsWhite(t[0]);
  }

  /** Type "Test", click send, the request fails: the user entry and the error entry. */
  lemma FailureScenario(x: string)
    ensures
      var s1 := Initial().SetInputText("Test").SendClick();
      var s2 := s1.after.CompleteSend(Failed, x);
      && s1.request.Some?
      && s2.messages == [UserEntry("Test"), Message(None, Error, Some(FailureText))]
      && !s2.isLoading
  {
    var t := "Test";
    assert !Whitespace.IsWhite(t[0]);
  }
}
