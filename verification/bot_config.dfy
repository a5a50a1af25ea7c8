/** The bot-configuration document edited by the Visual Editor: company
    persona, version stamp, shared content, and the ordered list of
    conversation stages with their segments and wakeups. Only the fields the
    editor's record types declare are modelled. */
module BotConfig {

  /** A class of user replies within a stage, with example utterances. */
  datatype Segment = Segment(
    id: string,
    segmentType: string,
    description: string,
    examples: seq<string>)

  /** A timed re-engagement prompt; `timer` is in seconds. Wakeups carry no
      identifier of their own. */
  datatype Wakeup = Wakeup(
    trigger: string,
    timer: int,
    prompt: string,
    question: string)

  /** One step of the conversation script. The editor uses `name` as the
      stage's identity, but nothing keeps names unique. */
  datatype Stage = Stage(
    name: string,
    prompt: string,
    question: string,
    theme: string,
    offer: string,
    terminal: string,
    terms: string,
    time: string,
    segments: seq<Segment>,
    wakeups: seq<Wakeup>)

  datatype Company = Company(
    lang: string,
    salespersonName: string,
    salespersonGender: string,
    salespersonRole: string,
    product: string,
    companyName: string)

  datatype Meta = Meta(version: int, createdAt: string)

  datatype Content = Content(wakeupsBase: seq<string>, thankYouNote: string)

  /** The whole document (`BotConfig`). */
  datatype Config = Config(
    company: Company,
    meta: Meta,
    content: Content,
    stages: seq<Stage>)

  /** The stage names in document order. */
  function Names(stages: seq<Stage>): (r: seq<string>)
    ensures |r| == |stages|
    ensures forall i :: 0 <= i < |r| ==> r[i] == stages[i].name
  {
    seq(|stages|, i requires 0 <= i < |stages| => stages[i].name)
  }
}
