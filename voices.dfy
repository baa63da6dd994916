/** The voice catalog of the page and the body of the synthesis request it posts. */
module Voices {

  import opened Wrappers

  /** One selectable voice: `name` is sent to the service, `labelText` (the source's `label`) is shown. */
  datatype Voice = Voice(name: string, labelText: string)

  const Catalog: seq<Voice> := [
    Voice("mrbeast", "Mr Beast"),
    Voice("jamie", "Jamie"),
    Voice("snoop", "Snoop"),
    Voice("henry", "Henry"),
    Voice("gwyneth", "Gwyneth"),
    Voice("cliff", "Cliff"),
    Voice("narrator", "Narrator")
  ]

  /** The voice selected when the page mounts. */
  const DefaultVoice: string := "mrbeast"

  datatype VoiceParams = VoiceParams(name: string, engine: string, languageCode: string)

  /** The JSON body of the POST request. */
  datatype SynthesisRequest = SynthesisRequest(
    audioFormat: string,
    paragraphChunks: seq<string>,
    voiceParams: VoiceParams)

  /** Does the catalog offer a voice named `name`? */
  predicate Listed(name: string) {
    exists i :: 0 <= i < |Catalog| && Catalog[i].name == name
  }

  /** The label the voice picker shows for `name`, if the catalog has it. */
  function LabelOf(name: string): (r: Option<string>)
    ensures r.Some? <==> Listed(name)
    ensures r.Some? ==> exists i :: 0 <= i < |Catalog| && Catalog[i] == Voice(name, r.value)
  {
    LabelIn(Catalog, name)
  }

  function LabelIn(voices: seq<Voice>, name: string): (r: Option<string>)
    ensures r.Some? <==> exists i :: 0 <= i < |voices| && voices[i].name == name
    ensures r.Some? ==> exists i :: 0 <= i < |voices| && voices[i] == Voice(name, r.value)
  {
    if voices == [] then None
    else if voices[0].name == name then Some(voices[0].labelText)
    else
      var r := LabelIn(voices[1..], name);
      assert forall i :: 0 <= i < |voices| - 1 ==> voices[1..][i] == voices[i + 1];
      r
  }

  /** The voice names are distinct (they key the picker's items), and the default is one of them. */
  lemma CatalogWellFormed()
    ensures forall i, j :: 0 <= i < j < |Catalog| ==> Catalog[i].name != Catalog[j].name
    ensures LabelOf(DefaultVoice) == Some("Mr Beast")
  {
  }

  /** The body handleSend posts: the text as the one paragraph chunk, the selected
      voice passed through unvalidated, mp3 output, the speechify engine and US English. */
  function RequestFor(text: string, voice: string): (r: SynthesisRequest)
    ensures r.paragraphChunks == [text]
    ensures r.voiceParams.name == voice
    ensures r.audioFormat == "mp3"
  {
    SynthesisRequest("mp3", [text], VoiceParams(voice, "speechify", "en-US"))
  }

  /** The request carries text and voice verbatim: distinct inputs never yield the same
      request. */
  lemma RequestCarriesInputs(text: string, voice: string, text': string, voice': string)
    ensures RequestFor(text, voice) == RequestFor(text', voice') <==> text == text' && voice == voice'
  {
    if RequestFor(text, voice) == RequestFor(text', voice') {
      assert [text][0] == [text'][0];
    }
  }
}
