/**
 * What load reads from the control spec that the gradiojuce helper writes: the checks it
 * makes on the JSON, in order, and the model card it builds. Both WebWave2Wave versions
 * make the same checks; the current one throws with the messages below, the older one
 * returns false instead.
 */
module LoadSpec {
  import opened Wrappers
  import opened JuceVar
  import opened Controls

  /** What one run of the gradiojuce helper left behind: its exit code and the text it logged. */
  datatype HelperRun = HelperRun(exitCode: int, log: string)

  /**
   * Why a call threw: the helper exited with a non-zero code in a mode, or a check failed
   * with a fixed message. Message gives the text of the std::runtime_error.
   */
  datatype Failure = HelperFailure(mode: string, log: string) | Failed(text: string)

  /** The text of the exception thrown for a failure. */
  function Message(failure: Failure): string {
    match failure
    case HelperFailure(mode, log) =>
      "An error occurred while calling the gradiojuce helper with mode " + mode
      + ". Check the logs (~/Documents/HARP.log) for more details.\nLog content: " + log
    case Failed(text) => text
  }

  /** How a call ended: normally, or by throwing std::runtime_error. */
  datatype Outcome = Returned | Threw(error: Failure)

  const UrlMissing := Failed("url not found in params")
  const SpecVoid := Failed("Failed to load controls from JSON. juce::var was void.")
  const DictNull := Failed("Failed to load control dict from JSON. ctrlDict is null.")
  const CardMissing := Failed("Failed to load model card from JSON. card key not found.")
  const CardNotObject := Failed("Failed to load model card from JSON.")
  const TagsNull := Failed("Failed to load tags from JSON. tags is null.")
  const CtrlsMissing := Failed("Failed to load controls from JSON. ctrls key not found.")
  const CtrlsNull := Failed("Failed to load controls from JSON. ctrlList is null.")
  const RecordNotObject := Failed("Failed to load controls from JSON. ctrl is not an object.")

  /** The "card" object's properties and the elements of its "tags" array. */
  datatype CardSource = CardSource(fields: Properties, tags: seq<Var>)

  /**
   * Where reading the spec ends: stopped with a failure (and the card source, when the
   * card had been written before the stop), or accepted with the card and the control
   * records.
   */
  datatype SpecReading =
    | Stopped(error: Failure, card: Option<CardSource>)
    | Accepted(source: CardSource, records: seq<Var>)

  /**
   * The shape load needs: an object whose "card" is an object with a "tags" array, and
   * whose "ctrls" is an array.
   */
  predicate WellFormedSpec(spec: Var) {
    spec.Object?
    && (match Lookup(spec.properties, "card")
        case Some(Object(card)) => (match Lookup(card, "tags") case Some(Array(_)) => true case _ => false)
        case _ => false)
    && (match Lookup(spec.properties, "ctrls") case Some(Array(_)) => true case _ => false)
  }

  /**
   * The checks load makes after the helper has run, in the order it makes them. `spec` is
   * what loadJsonFromFile returned: void when the file is missing or does not parse.
   */
  function ReadSpec(run: HelperRun, spec: Var): (r: SpecReading)
    ensures r.Accepted? <==> run.exitCode == 0 && WellFormedSpec(spec)
    ensures run.exitCode != 0 ==> r == Stopped(HelperFailure("get_ctrls", run.log), None)
    ensures run.exitCode == 0 && !spec.Object? ==> r.Stopped? && r.card.None?
    ensures r.Accepted? ==>
      Lookup(spec.properties, "card") == Some(Object(r.source.fields))
      && Lookup(r.source.fields, "tags") == Some(Array(r.source.tags))
      && Lookup(spec.properties, "ctrls") == Some(Array(r.records))
    ensures r.Stopped? && r.card.Some? ==> r.error in {TagsNull, CtrlsMissing, CtrlsNull}
    ensures r.Stopped? && r.card.Some? ==>
      (r.error == TagsNull <==> r.card.value.tags == [] && GetArray(GetProperty(r.card.value.fields, "tags")).None?)
  {
    if run.exitCode != 0 then Stopped(HelperFailure("get_ctrls", run.log), None)
    else if IsVoid(spec) then Stopped(SpecVoid, None)
    else match GetDynamicObject(spec)
      case None => Stopped(DictNull, None)
      case Some(dict) =>
        if !HasProperty(dict, "card") then Stopped(CardMissing, None)
        else match GetDynamicObject(GetProperty(dict, "card"))
          case None => Stopped(CardNotObject, None)
          case Some(fields) =>
            match GetArray(GetProperty(fields, "tags"))
            case None => Stopped(TagsNull, Some(CardSource(fields, [])))
            case Some(tags) =>
              var source := CardSource(fields, tags);
              if !HasProperty(dict, "ctrls") then Stopped(CtrlsMissing, Some(source))
              else match GetArray(GetProperty(dict, "ctrls"))
                case None => Stopped(CtrlsNull, Some(source))
                case Some(records) => Accepted(source, records)
  }

  /** The text of each tag, in order. */
  function TagTexts(tags: seq<Var>): (r: seq<string>)
    ensures |r| == |tags|
  {
    seq(|tags|, i requires 0 <= i < |tags| => ToString(tags[i]))
  }

  /** The model card load writes: a fresh ModelCard with the fields each version copies. */
  function CardOf(source: CardSource, dialect: Dialect): (r: ModelCard)
    ensures r.tags == TagTexts(source.tags)
    ensures dialect == Legacy ==> r.midiIn == BlankCard.midiIn && r.midiOut == BlankCard.midiOut
  {
    var fields := source.fields;
    var card := BlankCard.(name := ToString(GetProperty(fields, "name")),
                           description := ToString(GetProperty(fields, "description")),
                           author := ToString(GetProperty(fields, "author")),
                           tags := TagTexts(source.tags));
    if dialect == Current then
      card.(midiIn := ToString(GetProperty(fields, "midi_in")), midiOut := ToString(GetProperty(fields, "midi_out")))
    else card
  }
}
