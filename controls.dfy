/**
 * The control schema both WebWave2Wave versions keep: the Ctrl variants, how a JSON
 * control record becomes one, how saveCtrls turns the list into the values it writes,
 * and the search by id. The two versions differ in which records they recognise, which
 * controls get a fresh id and which variants saveCtrls accepts; `Dialect` says which
 * version is meant.
 */
module Controls {
  import opened Wrappers
  import opened JuceVar

  /** juce::Uuid: the null id every control starts with, or one handed out by the generator. */
  datatype Uuid = Null | Issued(serial: nat)

  /** The Uuid generator, as a counter: every id it hands out differs from all earlier ones. */
  class UuidSource {
    var issued: nat

    constructor()
      ensures issued == 0
    {
      issued := 0;
    }

    /** juce::Uuid(): a fresh id. */
    method Next() returns (id: Uuid)
      modifies this
      ensures id == Issued(old(issued)) && issued == old(issued) + 1
    {
      id := Issued(issued);
      issued := issued + 1;
    }
  }

  /** A double read with String::getFloatValue; the model keeps the text it is read from. */
  datatype Float = FloatOf(source: string)

  /**
   * The Ctrl structs; `caption` is the struct's label field. `Plain` is the base struct itself,
   * which no variant check accepts.
   */
  datatype Ctrl =
    | Plain(id: Uuid, caption: string)
    | Slider(id: Uuid, caption: string, minimum: Float, maximum: Float, step: Float, number: Float)
    | TextBox(id: Uuid, caption: string, text: string)
    | AudioIn(id: Uuid, caption: string, text: string)
    | MidiIn(id: Uuid, caption: string, text: string)
    | NumberBox(id: Uuid, caption: string, min: Float, max: Float, number: Float)
    | Toggle(id: Uuid, caption: string, flag: bool)
    | ComboBox(id: Uuid, caption: string, options: seq<string>, text: string)

  /** CtrlList: the id each control is filed under, with the control. */
  type CtrlList = seq<(Uuid, Ctrl)>

  /** A value saveCtrls writes: a number, a string or a bool. */
  datatype Value = NumberValue(number: Float) | TextValue(text: string) | FlagValue(flag: bool)

  /** ModelCard. Model.h, which declares it, is not part of this model. */
  datatype ModelCard = ModelCard(name: string, description: string, author: string, tags: seq<string>,
                                 midiIn: string, midiOut: string)

  /** ModelCard(), taking its text fields to start empty. */
  const BlankCard := ModelCard("", "", "", [], "", "")

  /** Which WebWave2Wave: src/WebModel.h, or the older Source/DeepLearning/WebModel.h. */
  datatype Dialect = Current | Legacy

  /** findCtrlByUuid: the position of the first entry filed under `id`, or the length (end()) when there is none. */
  function FindById(ctrls: CtrlList, id: Uuid): (r: nat)
    decreases |ctrls|
    ensures r <= |ctrls|
    ensures r < |ctrls| ==> ctrls[r].0 == id
    ensures forall i :: 0 <= i < r ==> ctrls[i].0 != id
  {
    if ctrls == [] then 0
    else if ctrls[0].0 == id then 0
    else
      var r := FindById(ctrls[1..], id);
      assert forall i :: 1 <= i < |ctrls| ==> ctrls[i] == ctrls[1..][i - 1];
      1 + r
  }

  // ---------------------------------------------------------------------------
  // Reading control records

  /** The control types load knows, and every other type. */
  datatype Kind = AudioInKind | MidiInKind | SliderKind | TextKind | NumberBoxKind | OtherKind

  /** The kind a "ctrl_type" text names. */
  function KindNamed(ctrlType: string): Kind {
    if ctrlType == "audio_in" then AudioInKind
    else if ctrlType == "midi_in" then MidiInKind
    else if ctrlType == "slider" then SliderKind
    else if ctrlType == "text" then TextKind
    else if ctrlType == "number_box" then NumberBoxKind
    else OtherKind
  }

  /** ctrl[name].toString(): the text of a record's field (empty when missing, or when the record is an array). */
  function Field(record: Var, name: string): string {
    ToString(Member(record, name))
  }

  /**
   * A control record as load reads it: the kind its "ctrl_type" names and the text of
   * each field a control is built from.
   */
  datatype Record = Record(kind: Kind, caption: string, minimum: string, maximum: string, step: string,
                           value: string, min: string, max: string)

  function ReadRecord(record: Var): Record {
    Record(KindNamed(Field(record, "ctrl_type")), Field(record, "label"), Field(record, "minimum"),
           Field(record, "maximum"), Field(record, "step"), Field(record, "value"), Field(record, "min"),
           Field(record, "max"))
  }

  /** Each record, read. */
  function ReadAll(records: seq<Var>): (r: seq<Record>)
    ensures |r| == |records|
  {
    seq(|records|, i requires 0 <= i < |records| => ReadRecord(records[i]))
  }

  /** Reading one record more. */
  lemma ReadAllNext(records: seq<Var>, j: nat)
    requires j < |records|
    ensures ReadAll(records)[..j + 1] == ReadAll(records)[..j] + [ReadRecord(records[j])]
  {
    var parsed := ReadAll(records);
    assert parsed[j] == ReadRecord(records[j]);
    assert parsed[..j + 1] == parsed[..j] + [parsed[j]];
  }

  /** The kinds load turns into controls; records of any other type are skipped. */
  predicate Recognised(kind: Kind, dialect: Dialect) {
    match kind
    case OtherKind => false
    case MidiInKind => dialect == Current
    case _ => true
  }

  /** The kinds that are given a fresh id; the others keep the null id of the base struct. */
  predicate TakesFreshId(kind: Kind, dialect: Dialect) {
    kind == SliderKind || (dialect == Current && kind == TextKind)
  }

  /** The control load builds from a record of a recognised type, filed under `id`; numbers are read with getFloatValue. */
  function MakeCtrl(record: Record, id: Uuid): Ctrl {
    match record.kind
    case AudioInKind => AudioIn(id, record.caption, "")
    case MidiInKind => MidiIn(id, record.caption, "")
    case SliderKind =>
      Slider(id, record.caption, FloatOf(record.minimum), FloatOf(record.maximum), FloatOf(record.step),
             FloatOf(record.value))
    case TextKind => TextBox(id, record.caption, record.value)
    case NumberBoxKind => NumberBox(id, record.caption, FloatOf(record.min), FloatOf(record.max), FloatOf(record.value))
    case OtherKind => Plain(id, record.caption)
  }

  /** The kind of record a control is read from. */
  function KindOf(c: Ctrl): Kind {
    match c
    case Slider(_, _, _, _, _, _) => SliderKind
    case TextBox(_, _, _) => TextKind
    case AudioIn(_, _, _) => AudioInKind
    case MidiIn(_, _, _) => MidiInKind
    case NumberBox(_, _, _, _, _) => NumberBoxKind
    case _ => OtherKind
  }

  /** A record's kind is the type its "ctrl_type" names, and its texts are those of the fields of the same names. */
  lemma ReadRecordFields(v: Var)
    ensures var r := ReadRecord(v); var t := Field(v, "ctrl_type");
      (r.kind == AudioInKind <==> t == "audio_in") && (r.kind == MidiInKind <==> t == "midi_in")
      && (r.kind == SliderKind <==> t == "slider") && (r.kind == TextKind <==> t == "text")
      && (r.kind == NumberBoxKind <==> t == "number_box")
      && r.caption == Field(v, "label") && r.value == Field(v, "value")
      && r.minimum == Field(v, "minimum") && r.maximum == Field(v, "maximum") && r.step == Field(v, "step")
      && r.min == Field(v, "min") && r.max == Field(v, "max")
  {
  }

  /**
   * The control built from a record is of the record's kind, carries its label and id, and
   * takes each value from the record field the load loop reads for that variant; the
   * inputs start with an empty value.
   */
  lemma MakeCtrlFields(record: Record, id: Uuid)
    ensures var c := MakeCtrl(record, id);
      c.id == id && c.caption == record.caption && KindOf(c) == record.kind
      && (c.Slider? ==> c.minimum == FloatOf(record.minimum) && c.maximum == FloatOf(record.maximum)
                        && c.step == FloatOf(record.step) && c.number == FloatOf(record.value))
      && (c.TextBox? ==> c.text == record.value)
      && (c.NumberBox? ==> c.min == FloatOf(record.min) && c.max == FloatOf(record.max)
                           && c.number == FloatOf(record.value))
      && ((c.AudioIn? || c.MidiIn?) ==> c.text == "")
  {
  }

  /**
   * What the load loop adds for a JSON record of a recognised type, in terms of that
   * record's own fields.
   */
  lemma {:induction false} AddedFromJson(v: Var, dialect: Dialect, next: nat)
    requires Recognised(ReadRecord(v).kind, dialect)
    ensures var added := Added(ReadRecord(v), dialect, next); var c := added[0].1; var t := Field(v, "ctrl_type");
      |added| == 1 && added[0].0 == c.id && c.caption == Field(v, "label")
      && (t == "slider" ==> c.Slider? && c.minimum == FloatOf(Field(v, "minimum"))
                            && c.maximum == FloatOf(Field(v, "maximum")) && c.step == FloatOf(Field(v, "step"))
                            && c.number == FloatOf(Field(v, "value")))
      && (t == "text" ==> c.TextBox? && c.text == Field(v, "value"))
      && (t == "number_box" ==> c.NumberBox? && c.min == FloatOf(Field(v, "min")) && c.max == FloatOf(Field(v, "max"))
                                && c.number == FloatOf(Field(v, "value")))
      && (t == "audio_in" ==> c.AudioIn? && c.text == "")
      && (t == "midi_in" ==> c.MidiIn? && c.text == "")
  {
    var record := ReadRecord(v);
    ReadRecordFields(v);
    var added := Added(record, dialect, next);
    MakeCtrlFields(record, added[0].0);
  }

  /** How many of the records get a fresh id. */
  function FreshCount(records: seq<Record>, dialect: Dialect): nat
    decreases |records|
  {
    if records == [] then 0
    else FreshCount(records[..|records| - 1], dialect)
         + (if TakesFreshId(records[|records| - 1].kind, dialect) then 1 else 0)
  }

  /** The (kind, label) of each record load keeps, in order. */
  function RecognisedShapes(records: seq<Record>, dialect: Dialect): seq<(Kind, string)>
    decreases |records|
  {
    if records == [] then []
    else
      var last := records[|records| - 1];
      RecognisedShapes(records[..|records| - 1], dialect)
      + (if Recognised(last.kind, dialect) then [(last.kind, last.caption)] else [])
  }

  /** The (kind, label) of each control. */
  function Shapes(ctrls: CtrlList): (r: seq<(Kind, string)>)
    ensures |r| == |ctrls|
  {
    seq(|ctrls|, i requires 0 <= i < |ctrls| => (KindOf(ctrls[i].1), ctrls[i].1.caption))
  }

  /**
   * What one pass of the control loop adds for `record`, when the next fresh id would
   * have serial `next`: nothing for a type it does not know, else the control filed under
   * its id.
   */
  function Added(record: Record, dialect: Dialect, next: nat): (r: CtrlList)
    ensures |r| == if Recognised(record.kind, dialect) then 1 else 0
    ensures |r| == 1 ==>
      r[0].0 == r[0].1.id && KindOf(r[0].1) == record.kind && r[0].1.caption == record.caption
      && (r[0].0.Issued? <==> TakesFreshId(record.kind, dialect))
      && (r[0].0.Issued? ==> r[0].0.serial == next)
  {
    if !Recognised(record.kind, dialect) then []
    else
      var id := if TakesFreshId(record.kind, dialect) then Issued(next) else Null;
      [(id, MakeCtrl(record, id))]
  }

  /**
   * The list load's control loop builds from `records`, when the fresh ids it hands out
   * start at serial `first`: recognised records in order, each filed under its own id.
   */
  function ParseCtrls(records: seq<Record>, dialect: Dialect, first: nat): (r: CtrlList)
    decreases |records|
    ensures |r| <= |records|
  {
    if records == [] then []
    else
      var n := |records| - 1;
      ParseCtrls(records[..n], dialect, first) + Added(records[n], dialect, first + FreshCount(records[..n], dialect))
  }

  /**
   * Every control is filed under its own id; exactly the kinds that take a fresh id have
   * one, and its serial lies in [lo, hi).
   */
  predicate FiledUnderIds(ctrls: CtrlList, dialect: Dialect, lo: nat, hi: nat) {
    forall i :: 0 <= i < |ctrls| ==>
      ctrls[i].0 == ctrls[i].1.id
      && (ctrls[i].0.Issued? <==> TakesFreshId(KindOf(ctrls[i].1), dialect))
      && (ctrls[i].0.Issued? ==> lo <= ctrls[i].0.serial < hi)
  }

  /** Load files each control under its own id, and hands out fresh ids only to the kinds that take one. */
  lemma {:induction false} ParsedIds(records: seq<Record>, dialect: Dialect, first: nat)
    ensures FiledUnderIds(ParseCtrls(records, dialect, first), dialect, first, first + FreshCount(records, dialect))
    decreases |records|
  {
    if records != [] {
      var n := |records| - 1;
      ParsedIds(records[..n], dialect, first);
      var front := ParseCtrls(records[..n], dialect, first);
      var added := Added(records[n], dialect, first + FreshCount(records[..n], dialect));
      var r := ParseCtrls(records, dialect, first);
      assert r == front + added;
      forall i | 0 <= i < |r|
        ensures r[i].0 == r[i].1.id
        ensures r[i].0.Issued? <==> TakesFreshId(KindOf(r[i].1), dialect)
        ensures r[i].0.Issued? ==> first <= r[i].0.serial < first + FreshCount(records, dialect)
      {
        if i < |front| {
          assert r[i] == front[i];
        } else {
          assert r[i] == added[0];
        }
      }
    }
  }

  /** The control loop's step: one record more adds what `Added` says, and counts towards the fresh ids if it takes one. */
  lemma {:induction false} ParseAppend(records: seq<Record>, record: Record, dialect: Dialect, first: nat)
    ensures ParseCtrls(records + [record], dialect, first)
         == ParseCtrls(records, dialect, first) + Added(record, dialect, first + FreshCount(records, dialect))
    ensures FreshCount(records + [record], dialect)
         == FreshCount(records, dialect) + (if TakesFreshId(record.kind, dialect) then 1 else 0)
  {
    var whole := records + [record];
    assert whole[..|records|] == records;
  }

  lemma ShapesAppend(front: CtrlList, entries: CtrlList)
    ensures Shapes(front + entries) == Shapes(front) + Shapes(entries)
  {
    var whole := front + entries;
    assert forall i :: 0 <= i < |front| ==> whole[i] == front[i];
    assert forall i :: 0 <= i < |entries| ==> whole[|front| + i] == entries[i];
  }

  /** Load keeps exactly the recognised records, in their order, with their labels. */
  lemma {:induction false} ParsedShapes(records: seq<Record>, dialect: Dialect, first: nat)
    ensures Shapes(ParseCtrls(records, dialect, first)) == RecognisedShapes(records, dialect)
    decreases |records|
  {
    if records != [] {
      var n := |records| - 1;
      ParsedShapes(records[..n], dialect, first);
      var front := ParseCtrls(records[..n], dialect, first);
      var added := Added(records[n], dialect, first + FreshCount(records[..n], dialect));
      ShapesAppend(front, added);
    }
  }

  /** The fresh ids of a list increase along it. */
  predicate FreshIncreasing(ctrls: CtrlList) {
    forall i, j :: 0 <= i < j < |ctrls| && ctrls[i].0.Issued? && ctrls[j].0.Issued? ==> ctrls[i].0.serial < ctrls[j].0.serial
  }

  /** Fresh ids are handed out in increasing order, so no two controls share one. */
  lemma {:induction false} FreshIdsIncrease(records: seq<Record>, dialect: Dialect, first: nat)
    ensures FreshIncreasing(ParseCtrls(records, dialect, first))
    decreases |records|
  {
    if records != [] {
      var n := |records| - 1;
      FreshIdsIncrease(records[..n], dialect, first);
      ParsedIds(records[..n], dialect, first);
      var front := ParseCtrls(records[..n], dialect, first);
      var added := Added(records[n], dialect, first + FreshCount(records[..n], dialect));
      var r := ParseCtrls(records, dialect, first);
      assert r == front + added;
      forall i, j | 0 <= i < j < |r| && r[i].0.Issued? && r[j].0.Issued? ensures r[i].0.serial < r[j].0.serial {
        assert r[i] == front[i];
        if j < |front| {
          assert r[j] == front[j];
        } else {
          assert r[j] == added[0];
        }
      }
    }
  }

  /** Every control with a fresh id is found by it, at its own position. */
  lemma FindFreshId(records: seq<Record>, dialect: Dialect, first: nat, i: nat)
    requires i < |ParseCtrls(records, dialect, first)|
    requires ParseCtrls(records, dialect, first)[i].0.Issued?
    ensures var r := ParseCtrls(records, dialect, first); FindById(r, r[i].0) == i
  {
    FreshIdsIncrease(records, dialect, first);
  }

  /**
   * The controls that keep the null id are all found at the first of them: findCtrlByUuid
   * cannot tell them apart.
   */
  lemma NullIdsCollide(ctrls: CtrlList, i: nat, j: nat)
    requires i < j < |ctrls| && ctrls[i].0 == Null && ctrls[j].0 == Null
    ensures FindById(ctrls, ctrls[j].0) <= i < j
  {
  }

  /** The index of the first record that is not a JSON object, or the length when all are. */
  function FirstNonObject(records: seq<Var>): (r: nat)
    decreases |records|
    ensures r <= |records|
    ensures r < |records| ==> !IsObject(records[r])
  {
    if records == [] then 0
    else if !IsObject(records[0]) then 0
    else
      var r := FirstNonObject(records[1..]);
      assert r < |records[1..]| ==> records[1..][r] == records[r + 1];
      1 + r
  }

  /** Every record before the first non-object is an object. */
  lemma {:induction false} ObjectsBefore(records: seq<Var>, i: nat)
    requires i < FirstNonObject(records)
    ensures IsObject(records[i])
    decreases |records|
  {
    if i > 0 {
      ObjectsBefore(records[1..], i - 1);
    }
  }

  // ---------------------------------------------------------------------------
  // Saving control values

  /** The value saveCtrls writes for a control, or none when the control is of a variant it does not handle. */
  function Emitted(c: Ctrl, inputPath: string, dialect: Dialect): Option<Value> {
    match c
    case Slider(_, _, _, _, _, number) => Some(NumberValue(number))
    case TextBox(_, _, text) => Some(TextValue(text))
    case NumberBox(_, _, _, _, number) => Some(NumberValue(number))
    case Toggle(_, _, flag) => Some(FlagValue(flag))
    case ComboBox(_, _, _, text) => Some(TextValue(text))
    case AudioIn(_, _, _) => Some(TextValue(inputPath))
    case MidiIn(_, _, _) => if dialect == Current then Some(TextValue(inputPath)) else None
    case Plain(_, _) => None
  }

  /** The value a control holds, as saveCtrls reads it for the variants whose value it keeps. */
  function Held(c: Ctrl): Option<Value> {
    match c
    case Slider(_, _, _, _, _, number) => Some(NumberValue(number))
    case TextBox(_, _, text) => Some(TextValue(text))
    case NumberBox(_, _, _, _, number) => Some(NumberValue(number))
    case Toggle(_, _, flag) => Some(FlagValue(flag))
    case ComboBox(_, _, _, text) => Some(TextValue(text))
    case AudioIn(_, _, text) => Some(TextValue(text))
    case MidiIn(_, _, text) => Some(TextValue(text))
    case Plain(_, _) => None
  }

  predicate Supported(c: Ctrl, dialect: Dialect) {
    Emitted(c, "", dialect).Some?
  }

  /** The controls whose value saveCtrls replaces with the input path. */
  predicate IsInput(c: Ctrl, dialect: Dialect) {
    c.AudioIn? || (dialect == Current && c.MidiIn?)
  }

  /** An entry after saveCtrls has visited it: an input now holds the input path. */
  function Overwritten(entry: (Uuid, Ctrl), inputPath: string, dialect: Dialect): (Uuid, Ctrl) {
    if IsInput(entry.1, dialect) then (entry.0, entry.1.(text := inputPath)) else entry
  }

  /** The list after saveCtrls has visited its first `n` entries. */
  function OverwriteInputs(ctrls: CtrlList, inputPath: string, dialect: Dialect, n: nat): (r: CtrlList)
    ensures |r| == |ctrls|
  {
    seq(|ctrls|, i requires 0 <= i < |ctrls| => if i < n then Overwritten(ctrls[i], inputPath, dialect) else ctrls[i])
  }

  /** Where saveCtrls stops: the first entry of a variant it does not handle, or the length. */
  function FirstUnsupported(ctrls: CtrlList, dialect: Dialect): (r: nat)
    decreases |ctrls|
    ensures r <= |ctrls|
    ensures r < |ctrls| ==> !Supported(ctrls[r].1, dialect)
    ensures forall i :: 0 <= i < r ==> Supported(ctrls[i].1, dialect)
  {
    if ctrls == [] then 0
    else if !Supported(ctrls[0].1, dialect) then 0
    else
      var r := FirstUnsupported(ctrls[1..], dialect);
      assert forall i :: 1 <= i < |ctrls| ==> ctrls[i] == ctrls[1..][i - 1];
      1 + r
  }

  /**
   * The values saveCtrls writes: one per control, in list order, or none at all when any
   * control is of a variant it does not handle.
   */
  function Serialize(ctrls: CtrlList, inputPath: string, dialect: Dialect): (r: Option<seq<Value>>)
    decreases |ctrls|
    ensures r.Some? <==> forall i :: 0 <= i < |ctrls| ==> Supported(ctrls[i].1, dialect)
    ensures r.Some? ==> |r.value| == |ctrls|
                        && forall i :: 0 <= i < |ctrls| ==> Some(r.value[i]) == Emitted(ctrls[i].1, inputPath, dialect)
  {
    if ctrls == [] then Some([])
    else
      var n := |ctrls| - 1;
      var front := Serialize(ctrls[..n], inputPath, dialect);
      assert forall i :: 0 <= i < n ==> ctrls[..n][i] == ctrls[i];
      match Emitted(ctrls[n].1, inputPath, dialect)
      case None => None
      case Some(v) => if front.None? then None else Some(front.value + [v])
  }

  /**
   * The loop of saveCtrls: visit the controls in order, replacing each input's value with
   * the input path and collecting the values to write; give up at the first control of a
   * variant it does not handle. `visited` is the list afterwards.
   */
  method SaveValues(ctrls: CtrlList, inputPath: string, dialect: Dialect) returns (ok: bool, visited: CtrlList, values: seq<Value>)
    ensures ok <==> Serialize(ctrls, inputPath, dialect).Some?
    ensures ok ==> values == Serialize(ctrls, inputPath, dialect).value
    ensures visited == OverwriteInputs(ctrls, inputPath, dialect, FirstUnsupported(ctrls, dialect))
  {
    visited := ctrls;
    values := [];
    var i := 0;
    while i < |ctrls|
      invariant 0 <= i <= |ctrls|
      invariant forall j :: 0 <= j < i ==> Supported(ctrls[j].1, dialect)
      invariant visited == OverwriteInputs(ctrls, inputPath, dialect, i)
      invariant |values| == i
      invariant forall j :: 0 <= j < i ==> Some(values[j]) == Emitted(ctrls[j].1, inputPath, dialect)
    {
      var c := visited[i].1;
      var v := Emitted(c, inputPath, dialect);
      if v.None? {
        assert !Supported(ctrls[i].1, dialect);
        ok := false;
        return;
      }
      visited := visited[i := Overwritten(visited[i], inputPath, dialect)];
      values := values + [v.value];
      i := i + 1;
    }
    ok := true;
    var all := Serialize(ctrls, inputPath, dialect);
    assert forall j :: 0 <= j < |ctrls| ==> Some(values[j]) == Some(all.value[j]);
  }

  /** Whether the values are written at all is decided by where saveCtrls stops. */
  lemma SerializeStops(ctrls: CtrlList, inputPath: string, dialect: Dialect)
    ensures Serialize(ctrls, inputPath, dialect).Some? <==> FirstUnsupported(ctrls, dialect) == |ctrls|
  {
    var k := FirstUnsupported(ctrls, dialect);
    if k < |ctrls| {
      assert !Supported(ctrls[k].1, dialect);
    }
  }

  /**
   * After a save that writes its values, every value written is the value its control
   * now holds: the inputs were overwritten with the path they announced.
   */
  lemma SavedValuesAreHeld(ctrls: CtrlList, inputPath: string, dialect: Dialect)
    requires Serialize(ctrls, inputPath, dialect).Some?
    ensures var after := OverwriteInputs(ctrls, inputPath, dialect, |ctrls|);
      var values := Serialize(ctrls, inputPath, dialect).value;
      forall i :: 0 <= i < |ctrls| ==> Held(after[i].1) == Some(values[i])
  {
    var after := OverwriteInputs(ctrls, inputPath, dialect, |ctrls|);
    forall i | 0 <= i < |ctrls| ensures Held(after[i].1) == Emitted(ctrls[i].1, inputPath, dialect) {
      assert Supported(ctrls[i].1, dialect);
    }
  }

  /** Saving only changes input values: ids, variants and labels stay. */
  lemma OverwriteKeepsShape(ctrls: CtrlList, inputPath: string, dialect: Dialect, n: nat)
    ensures var after := OverwriteInputs(ctrls, inputPath, dialect, n);
      Shapes(after) == Shapes(ctrls) && forall i :: 0 <= i < |ctrls| ==> after[i].0 == ctrls[i].0
  {
  }

  /** Visiting an entry twice is visiting it once, and never changes the value it emits. */
  lemma OverwrittenSettles(entry: (Uuid, Ctrl), inputPath: string, dialect: Dialect)
    ensures var after := Overwritten(entry, inputPath, dialect);
      Overwritten(after, inputPath, dialect) == after
      && Emitted(after.1, inputPath, dialect) == Emitted(entry.1, inputPath, dialect)
  {
  }

  /** Lists whose controls are handled alike stop saving at the same entry. */
  lemma FirstUnsupportedSame(a: CtrlList, b: CtrlList, dialect: Dialect)
    requires |a| == |b|
    requires forall i :: 0 <= i < |a| ==> Supported(a[i].1, dialect) == Supported(b[i].1, dialect)
    ensures FirstUnsupported(a, dialect) == FirstUnsupported(b, dialect)
  {
  }

  /** Lists whose controls emit the same values serialise alike. */
  lemma SerializeSame(a: CtrlList, b: CtrlList, inputPath: string, dialect: Dialect)
    requires |a| == |b|
    requires forall i :: 0 <= i < |a| ==> Emitted(a[i].1, inputPath, dialect) == Emitted(b[i].1, inputPath, dialect)
    ensures Serialize(a, inputPath, dialect) == Serialize(b, inputPath, dialect)
  {
    var sa := Serialize(a, inputPath, dialect);
    var sb := Serialize(b, inputPath, dialect);
    forall i | 0 <= i < |a| ensures Supported(a[i].1, dialect) == Supported(b[i].1, dialect) {
      assert Emitted(a[i].1, "", dialect).Some? == Emitted(a[i].1, inputPath, dialect).Some?;
      assert Emitted(b[i].1, "", dialect).Some? == Emitted(b[i].1, inputPath, dialect).Some?;
    }
    if sa.Some? {
      assert sb.Some?;
      assert forall i :: 0 <= i < |a| ==> Some(sa.value[i]) == Some(sb.value[i]);
      assert sa.value == sb.value;
    }
  }

  /** Saving twice with the same input path writes the same values and leaves the same list. */
  lemma SaveIsIdempotent(ctrls: CtrlList, inputPath: string, dialect: Dialect)
    ensures var after := OverwriteInputs(ctrls, inputPath, dialect, FirstUnsupported(ctrls, dialect));
      Serialize(after, inputPath, dialect) == Serialize(ctrls, inputPath, dialect)
      && OverwriteInputs(after, inputPath, dialect, FirstUnsupported(after, dialect)) == after
  {
    var k := FirstUnsupported(ctrls, dialect);
    var after := OverwriteInputs(ctrls, inputPath, dialect, k);
    forall i | 0 <= i < |ctrls|
      ensures Emitted(after[i].1, inputPath, dialect) == Emitted(ctrls[i].1, inputPath, dialect)
      ensures Supported(after[i].1, dialect) == Supported(ctrls[i].1, dialect)
      ensures i < k ==> Overwritten(after[i], inputPath, dialect) == after[i]
    {
      OverwrittenSettles(ctrls[i], inputPath, dialect);
      OverwrittenSettles(ctrls[i], "", dialect);
    }
    FirstUnsupportedSame(after, ctrls, dialect);
    SerializeSame(after, ctrls, inputPath, dialect);
    var again := OverwriteInputs(after, inputPath, dialect, k);
    assert forall i :: 0 <= i < |after| ==> again[i] == after[i];
  }

  // ---------------------------------------------------------------------------
  // The two versions compared

  /** Without MIDI inputs in the list, both versions write the same values. */
  lemma DialectsSaveAlike(ctrls: CtrlList, inputPath: string)
    requires forall i :: 0 <= i < |ctrls| ==> !ctrls[i].1.MidiIn?
    ensures Serialize(ctrls, inputPath, Current) == Serialize(ctrls, inputPath, Legacy)
    ensures OverwriteInputs(ctrls, inputPath, Current, |ctrls|) == OverwriteInputs(ctrls, inputPath, Legacy, |ctrls|)
  {
    SerializeDialects(ctrls, inputPath);
  }

  lemma {:induction false} SerializeDialects(ctrls: CtrlList, inputPath: string)
    requires forall i :: 0 <= i < |ctrls| ==> !ctrls[i].1.MidiIn?
    ensures Serialize(ctrls, inputPath, Current) == Serialize(ctrls, inputPath, Legacy)
  {
    var c := Serialize(ctrls, inputPath, Current);
    var l := Serialize(ctrls, inputPath, Legacy);
    forall i | 0 <= i < |ctrls|
      ensures Emitted(ctrls[i].1, inputPath, Current) == Emitted(ctrls[i].1, inputPath, Legacy)
      ensures Supported(ctrls[i].1, Current) == Supported(ctrls[i].1, Legacy)
    {
      assert !ctrls[i].1.MidiIn?;
    }
    if c.Some? {
      assert l.Some?;
      assert forall i :: 0 <= i < |ctrls| ==> Some(c.value[i]) == Some(l.value[i]);
      assert c.value == l.value;
    }
  }

  /** The shapes that are not of the given kind, in order. */
  function DropKind(shapes: seq<(Kind, string)>, kind: Kind): seq<(Kind, string)>
    decreases |shapes|
  {
    if shapes == [] then []
    else
      var last := shapes[|shapes| - 1];
      DropKind(shapes[..|shapes| - 1], kind) + (if last.0 == kind then [] else [last])
  }

  /** The older version keeps the same records as the current one, except those of type midi_in. */
  lemma {:induction false} LegacySkipsMidiIn(records: seq<Record>)
    ensures RecognisedShapes(records, Legacy) == DropKind(RecognisedShapes(records, Current), MidiInKind)
    decreases |records|
  {
    if records != [] {
      var n := |records| - 1;
      LegacySkipsMidiIn(records[..n]);
      var front := RecognisedShapes(records[..n], Current);
      var last := records[n];
      if Recognised(last.kind, Current) {
        var whole := front + [(last.kind, last.caption)];
        assert whole[..|whole| - 1] == front;
      } else {
        assert RecognisedShapes(records, Current) == front;
      }
    }
  }
}
