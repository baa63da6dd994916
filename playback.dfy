/** The page's playback coordinator: the registry of audio elements (`audioRefs.current`,
    each element reduced to its `paused` flag) and `currentlyPlaying`. */
module Playback {

  import opened Wrappers

  /** `audios` maps a bot entry's id to whether its audio element is paused. */
  datatype Player = Player(audios: map<string, bool>, currentlyPlaying: Option<string>)

  /** The clip registered under `k` is playing. */
  predicate Audible(p: Player, k: string) {
    k in p.audios && !p.audios[k]
  }

  /** No registered clip is playing. */
  ghost predicate Silent(p: Player) {
    forall k :: k in p.audios ==> p.audios[k]
  }

  /** The single-playback rule: a clip plays only if it is `currentlyPlaying`, so every
      registered clip other than `currentlyPlaying` is paused. */
  ghost predicate Exclusive(p: Player) {
    forall k :: Audible(p, k) ==> p.currentlyPlaying == Some(k)
  }

  /** The registry never holds the empty id, which JavaScript treats as false. */
  ghost predicate IdsNonEmpty(p: Player) {
    "" !in p.audios
  }

  /** `currentlyPlaying && currentlyPlaying !== messageId`, with JavaScript's truthiness:
      null and the empty string both count as "nothing playing". */
  predicate OtherIsCurrent(current: Option<string>, id: string) {
    current.Some? && current.value != "" && current.value != id
  }

  /** `audioRefs.current[k]?.pause()`: pauses the clip if it is registered, else nothing. */
  function PauseIfPresent(audios: map<string, bool>, k: string): map<string, bool> {
    if k in audios then audios[k := true] else audios
  }

  /** handlePlayPause: any other current clip is paused first; then a paused target
      starts and becomes current, and a playing one is paused and nothing is current.
      An unregistered target makes `audio.paused` throw, after the other clip was
      paused and before `currentlyPlaying` is set. No clip is registered or dropped, and
      no clip but those two changes. */
  function PlayPause(p: Player, id: string): (r: Player)
    ensures r.audios.Keys == p.audios.Keys
    ensures OtherIsCurrent(p.currentlyPlaying, id) && p.currentlyPlaying.value in p.audios ==>
      r.audios[p.currentlyPlaying.value]
    ensures forall k :: k in p.audios && k != id && !(OtherIsCurrent(p.currentlyPlaying, id) && k == p.currentlyPlaying.value) ==>
      r.audios[k] == p.audios[k]
    ensures id in p.audios && p.audios[id] ==> Audible(r, id) && r.currentlyPlaying == Some(id)
    ensures id in p.audios && !p.audios[id] ==> !Audible(r, id) && r.currentlyPlaying == None
    ensures id !in p.audios ==> r.currentlyPlaying == p.currentlyPlaying
  {
    var audios :=
      if OtherIsCurrent(p.currentlyPlaying, id) then PauseIfPresent(p.audios, p.currentlyPlaying.value)
      else p.audios;
    if id !in audios then Player(audios, p.currentlyPlaying)
    else if audios[id] then Player(audios[id := false], Some(id))
    else Player(audios[id := true], None)
  }

  /** handleAudioEnded: `currentlyPlaying` becomes null whatever id it is given, and no
      clip starts or stops, since the handler touches no element. */
  function Ended(p: Player, id: string): (r: Player)
    ensures r.currentlyPlaying == None
    ensures r.audios.Keys == p.audios.Keys
    ensures forall k :: Audible(r, k) <==> Audible(p, k)
  {
    Player(p.audios, None)
  }

  /** What the browser does when a clip plays to its end: its element becomes paused,
      and nothing else changes. */
  function ReachEnd(p: Player, id: string): (r: Player)
    ensures !Audible(r, id)
    ensures r.audios.Keys == p.audios.Keys && r.currentlyPlaying == p.currentlyPlaying
    ensures forall k :: k != id ==> (Audible(r, k) <==> Audible(p, k))
  {
    Player(PauseIfPresent(p.audios, id), p.currentlyPlaying)
  }

  /** The ref callback `audioRefs.current[id] = el`: the id becomes registered; a newly
      mounted element starts paused, and re-attaching the element already registered under
      `id` changes nothing, so no clip starts or stops. */
  function Attach(p: Player, id: string): (r: Player)
    ensures r.audios.Keys == p.audios.Keys + {id}
    ensures r.currentlyPlaying == p.currentlyPlaying
    ensures forall k :: Audible(r, k) <==> Audible(p, k)
  {
    if id in p.audios then p else Player(p.audios[id := true], p.currentlyPlaying)
  }

  /** The registry after `forEach(audio => audio.pause())`: the same clips, all paused. */
  function AllPaused(audios: map<string, bool>): (r: map<string, bool>)
    ensures r.Keys == audios.Keys
    ensures forall k :: k in r ==> r[k]
  {
    map k | k in audios :: true
  }

  /** What handleNewChat leaves: an empty registry and nothing current, so nothing plays
      and the single-playback rule holds. */
  function Cleared(p: Player): (r: Player)
    ensures r.audios == map[] && r.currentlyPlaying == None
    ensures Silent(r) && Exclusive(r)
  {
    Player(map[], None)
  }

  // ---- What handlePlayPause does ----

  /** handlePlayPause keeps the single-playback rule, for every id. */
  lemma PlayPauseKeepsExclusive(p: Player, id: string)
    requires Exclusive(p) && IdsNonEmpty(p)
    ensures Exclusive(PlayPause(p, id)) && IdsNonEmpty(PlayPause(p, id))
  {
    var r := PlayPause(p, id);
    forall k | Audible(r, k) ensures r.currentlyPlaying == Some(k) {
      if k != id {
        // k was not touched, so it was already audible and hence current; being current
        // and different from the target, it is the clip that was paused first
        assert Audible(p, k);
      }
    }
  }

  /** Under the rule at most one clip is audible. */
  lemma ExclusiveMeansAtMostOne(p: Player, a: string, b: string)
    requires Exclusive(p)
    requires Audible(p, a) && Audible(p, b)
    ensures a == b
  {
  }

  /** Play a paused A, then B: B plays and is current, A is paused. B may be the clip
      playing before A is clicked; that click pauses it first. */
  lemma PlayThenPlayOther(p: Player, a: string, b: string)
    requires Exclusive(p) && IdsNonEmpty(p)
    requires a != b
    requires a in p.audios && b in p.audios && p.audios[a]
    ensures Audible(PlayPause(PlayPause(p, a), b), b)
    ensures PlayPause(PlayPause(p, a), b).audios[a]
    ensures PlayPause(PlayPause(p, a), b).currentlyPlaying == Some(b)
  {
    var q := PlayPause(p, a);
    assert q.audios[b] by {
      if !p.audios[b] {
        // b was playing, so it was current, and clicking a paused it first
        assert Audible(p, b);
      }
    }
  }

  /** Clicking the same clip twice plays it and then pauses it, leaving nothing current. */
  lemma PlayThenPauseSame(p: Player, a: string)
    requires a in p.audios && p.audios[a]
    ensures PlayPause(PlayPause(p, a), a).audios[a]
    ensures PlayPause(PlayPause(p, a), a).currentlyPlaying == None
  {
  }

  // ---- End of a clip ----

  /** handleAudioEnded clears `currentlyPlaying` whatever id it receives, and changes nothing else. */
  lemma EndedIgnoresId(p: Player, a: string, b: string)
    ensures Ended(p, a) == Ended(p, b)
    ensures Ended(p, a).currentlyPlaying == None && Ended(p, a).audios == p.audios
  {
  }

  /** After handleAudioEnded the rule holds exactly when no clip is playing. */
  lemma EndedExclusiveIffSilent(p: Player, id: string)
    ensures Exclusive(Ended(p, id)) <==> Silent(p)
  {
    if Exclusive(Ended(p, id)) {
      forall k | k in p.audios ensures p.audios[k] {
        assert !Audible(Ended(p, id), k);
      }
    }
  }

  /** The ordinary end of a clip: the playing clip reaches its end, the browser pauses it,
      then its ended event arrives. The rule still holds and nothing is current. */
  lemma NaturalEndKeepsExclusive(p: Player, id: string)
    requires Exclusive(p) && Audible(p, id)
    ensures Exclusive(Ended(ReachEnd(p, id), id))
    ensures Silent(ReachEnd(p, id))
  {
    var q := ReachEnd(p, id);
    forall k | k in q.audios ensures q.audios[k] {
      if k != id {
        assert !Audible(p, k);
      }
    }
    EndedExclusiveIffSilent(q, id);
  }

  /** The browser pausing a clip at its end never breaks the rule. */
  lemma ReachEndKeepsExclusive(p: Player, id: string)
    requires Exclusive(p) && IdsNonEmpty(p)
    ensures Exclusive(ReachEnd(p, id)) && IdsNonEmpty(ReachEnd(p, id))
  {
    forall k | Audible(ReachEnd(p, id), k) ensures ReachEnd(p, id).currentlyPlaying == Some(k) {
      assert Audible(p, k);
    }
  }

  /** The ended handler has no staleness check. An ended event of clip A that arrives
      after clip B has started clears `currentlyPlaying` while B keeps playing; a later
      click on a paused clip C then starts C without pausing B, and two clips play at once. */
  lemma StaleEndAllowsTwoAudible(p: Player, a: string, b: string, c: string)
    requires Exclusive(p)
    requires Audible(p, b) && c in p.audios && c != b
    ensures Ended(p, a).currentlyPlaying == None && Audible(Ended(p, a), b)
    ensures !Exclusive(Ended(p, a))
    ensures Audible(PlayPause(Ended(p, a), c), b) && Audible(PlayPause(Ended(p, a), c), c)
  {
    assert p.audios[c] by {
      if !p.audios[c] {
        assert Audible(p, c);
      }
    }
  }

  // ---- Registry ----

  /** Attaching a bot entry's element with a non-empty id keeps the rule; the new clip is paused. */
  lemma AttachKeepsExclusive(p: Player, id: string)
    requires Exclusive(p) && IdsNonEmpty(p) && id != ""
    ensures Exclusive(Attach(p, id)) && IdsNonEmpty(Attach(p, id))
    ensures id in Attach(p, id).audios && (id !in p.audios ==> Attach(p, id).audios[id])
  {
  }
}
