/** The TextToSpeech component as an object: its React state and `audioRefs.current`
    are fields, and each handler is a method whose new state is the one the
    corresponding SessionState function gives. */
module Page {

  import opened Wrappers
  import opened Transcript
  import Whitespace
  import Voices
  import Playback
  import opened Session

  class TextToSpeech {
    var messages: seq<Message>
    var inputText: string
    var selectedVoice: string
    var isLoading: bool
    var currentlyPlaying: Option<string>
    /** `audioRefs.current`, each audio element reduced to its `paused` flag. */
    var audios: map<string, bool>

    function State(): SessionState
      reads this
    {
      SessionState(messages, inputText, selectedVoice, isLoading, currentlyPlaying, audios)
    }

    ghost predicate Valid()
      reads this
    {
      State().Valid()
    }

    ghost predicate ExclusivePlayback()
      reads this
    {
      State().ExclusivePlayback()
    }

    constructor ()
      ensures State() == Initial()
      ensures Valid() && ExclusivePlayback()
    {
      messages, inputText, selectedVoice, isLoading := [], "", Voices.DefaultVoice, false;
      currentlyPlaying, audios := None, map[];
      new;
    }

    /** onChange of the input. */
    method SetInputText(text: string)
      modifies this
      ensures State() == old(State()).SetInputText(text)
      ensures old(Valid()) ==> Valid()
      ensures old(ExclusivePlayback()) ==> ExclusivePlayback()
    {
      inputText := text;
    }

    /** onValueChange of the voice picker. */
    method SetSelectedVoice(name: string)
      modifies this
      ensures State() == old(State()).SetSelectedVoice(name)
      ensures old(Valid()) ==> Valid()
      ensures old(ExclusivePlayback()) ==> ExclusivePlayback()
    {
      selectedVoice := name;
    }

    /** handleSend up to the `fetch`: returns the request it posts, or None for blank input. */
    method HandleSend() returns (request: Option<Voices.SynthesisRequest>)
      modifies this
      ensures Sent(State(), request) == old(State()).HandleSend()
      ensures old(Valid()) && !old(isLoading) ==> Valid()
      ensures old(ExclusivePlayback()) ==> ExclusivePlayback()
    {
      if Whitespace.IsBlank(inputText) {
        return None;
      }
      isLoading := true;
      messages := Submitted(messages, inputText);
      request := Some(Voices.RequestFor(inputText, selectedVoice));
      inputText := "";
      if old(Valid()) && !old(isLoading) {
        SubmittedShape(old(messages), old(inputText));
      }
    }

    /** handleSend once the request settles, with `Date.now().toString()` given as `freshId`. */
    method CompleteSend(outcome: Outcome, freshId: string)
      modifies this
      ensures State() == old(State()).CompleteSend(outcome, freshId)
      ensures old(Valid()) && old(isLoading) && freshId != "" ==> Valid()
      ensures old(ExclusivePlayback()) ==> ExclusivePlayback()
    {
      if Valid() && isLoading && freshId != "" {
        SettledShape(messages, outcome, freshId);
      }
      messages := Settled(messages, outcome, freshId);
      isLoading := false;
    }

    /** onKeyDown of the input. */
    method HandleKeyDown(key: string) returns (request: Option<Voices.SynthesisRequest>)
      modifies this
      ensures Sent(State(), request) == old(State()).KeyDown(key)
      ensures old(Valid()) ==> Valid()
      ensures old(ExclusivePlayback()) ==> ExclusivePlayback()
    {
      if key == "Enter" && !isLoading {
        request := HandleSend();
      } else {
        request := None;
      }
    }

    /** onClick of the send button, which is disabled while `isLoading`. */
    method HandleSendClick() returns (request: Option<Voices.SynthesisRequest>)
      modifies this
      ensures Sent(State(), request) == old(State()).SendClick()
      ensures old(Valid()) ==> Valid()
      ensures old(ExclusivePlayback()) ==> ExclusivePlayback()
    {
      if !isLoading {
        request := HandleSend();
      } else {
        request := None;
      }
    }

    /** handlePlayPause. `completed` is false when no audio element is registered under
        `messageId`: reading `audio.paused` then throws, after the other clip was paused. */
    method HandlePlayPause(messageId: string) returns (completed: bool)
      modifies this
      ensures State() == old(State()).PlayPause(messageId)
      ensures completed <==> messageId in old(audios)
      ensures old(Valid()) ==> Valid()
      ensures old(Valid()) && old(ExclusivePlayback()) ==> ExclusivePlayback()
    {
      if old(Valid()) && old(ExclusivePlayback()) {
        Playback.PlayPauseKeepsExclusive(State().Coordinator(), messageId);
      }
      if currentlyPlaying.Some? && currentlyPlaying.value != "" && currentlyPlaying.value != messageId {
        var other := currentlyPlaying.value;
        if other in audios {
          audios := audios[other := true];
        }
      }
      if messageId !in audios {
        return false;
      }
      if audios[messageId] {
        audios := audios[messageId := false];
        currentlyPlaying := Some(messageId);
      } else {
        audios := audios[messageId := true];
        currentlyPlaying := None;
      }
      completed := true;
    }

    /** handleAudioEnded: clears `currentlyPlaying`, whichever clip ended. */
    method HandleAudioEnded(messageId: string)
      modifies this
      ensures State() == old(State()).AudioEnded(messageId)
      ensures currentlyPlaying == None && audios == old(audios)
      ensures old(Valid()) ==> Valid()
      ensures ExclusivePlayback() <==> Playback.Silent(old(State()).Coordinator())
    {
      Playback.EndedExclusiveIffSilent(State().Coordinator(), messageId);
      currentlyPlaying := None;
    }

    /** The browser pausing a clip's element when it plays to its end. */
    method ClipReachedEnd(messageId: string)
      modifies this
      ensures State() == old(State()).ReachEnd(messageId)
      ensures old(Valid()) ==> Valid()
      ensures old(Valid()) && old(ExclusivePlayback()) ==> ExclusivePlayback()
    {
      if old(Valid()) && old(ExclusivePlayback()) {
        Playback.ReachEndKeepsExclusive(State().Coordinator(), messageId);
      }
      if messageId in audios {
        audios := audios[messageId := true];
      }
    }

    /** The ref callback `audioRefs.current[message.id!] = el` of a bot entry's audio element. */
    method AttachAudio(messageId: string)
      modifies this
      ensures State() == old(State()).AttachAudio(messageId)
      ensures old(Valid()) && IsBotId(old(messages), messageId) ==> Valid()
      ensures old(Valid()) && old(ExclusivePlayback()) && IsBotId(old(messages), messageId) ==>
        ExclusivePlayback()
    {
      if old(Valid()) && IsBotId(old(messages), messageId) {
        StepKeepsValid(State(), AudioMounted(messageId));
        if old(ExclusivePlayback()) {
          StepKeepsExclusive(State(), AudioMounted(messageId));
        }
      }
      if messageId !in audios {
        audios := audios[messageId := true];
      }
    }

    /** handleNewChat. Returns the clips the registry held, each paused by the loop,
        as they are when the registry lets go of them. */
    method HandleNewChat() returns (released: map<string, bool>)
      modifies this
      ensures State() == old(State()).NewChat()
      ensures released == Playback.AllPaused(old(audios))
      ensures old(Valid()) ==> Valid()
      ensures ExclusivePlayback()
    {
      messages := [];
      inputText := "";
      currentlyPlaying := None;
      var pending := audios.Keys;
      while pending != {}
        invariant pending <= audios.Keys && audios.Keys == old(audios).Keys
        invariant forall k :: k in audios && k !in pending ==> audios[k]
        invariant State() == old(State()).(messages := [], inputText := "", currentlyPlaying := None, audios := audios)
        decreases pending
      {
        var k :| k in pending;
        audios := audios[k := true];
        pending := pending - {k};
      }
      released := audios;
      audios := map[];
    }
  }
}
