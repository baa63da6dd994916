/** The chat transcript of the TextToSpeech page: its entries and the two array
    updates handleSend builds with spreads and `slice(0, -1)`. */
module Transcript {

  import opened Wrappers

  /** The four `type` tags of a Message. */
  datatype Kind = User | Loading | Bot | Error

  /** One transcript entry; `id` and `content` are optional, as in the page's Message type. */
  datatype Message = Message(id: Option<string>, kind: Kind, content: Option<string>)

  /** Prefix of the data URI a synthesized clip is stored under. */
  const AudioUriPrefix: string := "data:audio/mp3;base64,"

  /** The one message shown for every failed synthesis. */
  const FailureText: string := "Failed to generate audio. Please try again."

  /** How a synthesis request settled: the response's `audioStream`, or any failure
      (network error, non-2xx status, unreadable body), which the page does not distinguish. */
  datatype Outcome = Synthesized(audioStream: string) | Failed

  function UserEntry(text: string): Message {
    Message(None, User, Some(text))
  }

  const LoadingEntry: Message := Message(None, Loading, None)

  const ErrorEntry: Message := Message(None, Error, Some(FailureText))

  /** The data URI the page stores as a bot entry's content. */
  function AudioUri(audioStream: string): string {
    AudioUriPrefix + audioStream
  }

  /** Recovers the base64 payload from a stored data URI; None for any other string. */
  function PayloadOf(uri: string): Option<string> {
    if |uri| >= |AudioUriPrefix| && uri[..|AudioUriPrefix|] == AudioUriPrefix
    then Some(uri[|AudioUriPrefix|..])
    else None
  }

  /** The payload is stored verbatim: reading it back from the URI gives it unchanged. */
  lemma PayloadRoundTrip(audioStream: string)
    ensures PayloadOf(AudioUri(audioStream)) == Some(audioStream)
  {
    var uri := AudioUri(audioStream);
    assert uri[..|AudioUriPrefix|] == AudioUriPrefix;
    assert uri[|AudioUriPrefix|..] == audioStream;
  }

  /** The entry that replaces the loading entry once the request settles: a bot entry
      with the fresh id whose content gives the payload back, or the fixed error entry. */
  function Resolution(outcome: Outcome, freshId: string): (r: Message)
    ensures r.kind == Bot <==> outcome.Synthesized?
    ensures outcome.Synthesized? ==>
      r.id == Some(freshId) && r.content.Some? && PayloadOf(r.content.value) == Some(outcome.audioStream)
    ensures outcome.Failed? ==> r == Message(None, Error, Some(FailureText))
    ensures freshId != "" ==> WellFormedEntry(r)
  {
    match outcome
    case Synthesized(audioStream) =>
      PayloadRoundTrip(audioStream);
      Message(Some(freshId), Bot, Some(AudioUri(audioStream)))
    case Failed => ErrorEntry
  }

  /** `prev.slice(0, -1)`: every entry but the last; an empty array stays empty. */
  function DropLast(ms: seq<Message>): (r: seq<Message>)
    ensures |r| == if ms == [] then 0 else |ms| - 1
    ensures r == ms[..|r|]
  {
    if ms == [] then [] else ms[..|ms| - 1]
  }

  /** `[...messages, newMessage, { type: 'loading' }]`: the transcript stays as the prefix,
      followed by exactly the user entry with the text and then the loading entry. */
  function Submitted(ms: seq<Message>, text: string): (r: seq<Message>)
    ensures |r| == |ms| + 2 && r[..|ms|] == ms
    ensures r[|ms|] == UserEntry(text) && r[|ms| + 1] == LoadingEntry
  {
    ms + [UserEntry(text), LoadingEntry]
  }

  /** `[...prev.slice(0, -1), resolved]`: the last entry, whatever it is, gives way to
      the resolution; nothing checks that it is the loading entry. The length stays as it
      was, except that an empty transcript gets the resolution as its one entry. */
  function Settled(ms: seq<Message>, outcome: Outcome, freshId: string): (r: seq<Message>)
    ensures |r| == if ms == [] then 1 else |ms|
    ensures r[..|r| - 1] == ms[..|r| - 1]
    ensures r[|r| - 1] == Resolution(outcome, freshId)
  {
    DropLast(ms) + [Resolution(outcome, freshId)]
  }

  /** Submit then settle: the loading entry is what the settle replaces, so the
      transcript ends with the user's text followed by its resolution. */
  lemma SubmitThenSettle(ms: seq<Message>, text: string, outcome: Outcome, freshId: string)
    ensures Settled(Submitted(ms, text), outcome, freshId)
      == ms + [UserEntry(text), Resolution(outcome, freshId)]
  {
    var sub := Submitted(ms, text);
    assert DropLast(sub) == ms + [UserEntry(text)];
  }

  // ---- Shape of a transcript ----

  /** Every loading entry is the last one and directly follows a user entry. */
  ghost predicate PendingOnlyAtTail(ms: seq<Message>) {
    forall i :: 0 <= i < |ms| && ms[i].kind == Loading ==>
      i == |ms| - 1 && i > 0 && ms[i - 1].kind == User
  }

  ghost predicate NoPending(ms: seq<Message>) {
    forall i :: 0 <= i < |ms| ==> ms[i].kind != Loading
  }

  /** What the handlers give each kind of entry: a user entry holds text, a loading
      entry nothing, a bot entry a non-empty id and a data URI, an error entry the fixed message. */
  ghost predicate WellFormedEntry(m: Message) {
    match m.kind
    case User => m.id == None && m.content.Some?
    case Loading => m == LoadingEntry
    case Bot => m.id.Some? && m.id.value != "" && m.content.Some? && PayloadOf(m.content.value).Some?
    case Error => m == ErrorEntry
  }

  ghost predicate WellFormed(ms: seq<Message>) {
    forall i :: 0 <= i < |ms| ==> WellFormedEntry(ms[i])
  }

  /** The ids that the page hands to audio elements: those of its bot entries. */
  ghost predicate IsBotId(ms: seq<Message>, id: string) {
    exists i :: 0 <= i < |ms| && ms[i].kind == Bot && ms[i].id == Some(id)
  }

  /** With loading entries only at the tail, a transcript holds at most one of them. */
  lemma AtMostOnePending(ms: seq<Message>, i: int, j: int)
    requires PendingOnlyAtTail(ms)
    requires 0 <= i < |ms| && 0 <= j < |ms|
    requires ms[i].kind == Loading && ms[j].kind == Loading
    ensures i == j
  {
  }

  /** Submitting onto a transcript with no pending entry keeps it well shaped. */
  lemma SubmittedShape(ms: seq<Message>, text: string)
    requires NoPending(ms) && WellFormed(ms)
    ensures PendingOnlyAtTail(Submitted(ms, text)) && WellFormed(Submitted(ms, text))
  {
    var r := Submitted(ms, text);
    assert forall i :: 0 <= i < |ms| ==> r[i] == ms[i];
  }

  /** Settling a transcript whose only possible loading entry is its tail leaves none. */
  lemma SettledShape(ms: seq<Message>, outcome: Outcome, freshId: string)
    requires PendingOnlyAtTail(ms) && WellFormed(ms)
    requires freshId != ""
    ensures NoPending(Settled(ms, outcome, freshId)) && WellFormed(Settled(ms, outcome, freshId))
  {
    var r := Settled(ms, outcome, freshId);
    var n := |DropLast(ms)|;
    forall i | 0 <= i < |r| ensures r[i].kind != Loading && WellFormedEntry(r[i]) {
      if i < n {
        assert r[i] == ms[i];
      } else if outcome.Synthesized? {
        PayloadRoundTrip(outcome.audioStream);
      }
    }
  }
}
