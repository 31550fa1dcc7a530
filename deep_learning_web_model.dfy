/**
 * The older WebWave2Wave (Source/DeepLearning/WebModel.h). It makes the same checks on the
 * control spec as the current class, but reports a failure by returning false, knows no
 * MIDI input control, gives a fresh id to sliders only, and its process keeps going when
 * the helper fails. It has no status or cancel flag files.
 */
module DeepLearning {
  import opened Wrappers
  import opened JuceVar
  import opened Controls
  import opened LoadSpec

  /** How far process got: the three early returns, or reading the helper's output back into the buffer. */
  datatype ProcessEnd = NotLoaded | BufferNotSaved | CtrlsNotSaved | OutputRead

  class WebWave2Wave {
    var ctrls: CtrlList
    /** m_loaded, which the constructor leaves uninitialised. */
    var loaded: bool
    var url: string
    var card: ModelCard
    /** How many change messages load has broadcast. */
    var changeMessages: nat

    /**
     * The constructor does nothing, so m_loaded holds whatever was in memory: `garbage`
     * stands for that value. The card is the base class's default one.
     */
    constructor(garbage: bool)
      ensures ctrls == [] && loaded == garbage && url == "" && card == BlankCard && changeMessages == 0
    {
      ctrls := [];
      loaded := garbage;
      url := "";
      card := BlankCard;
      changeMessages := 0;
    }

    /**
     * load: run the helper in get_ctrls mode and read the control spec it wrote; true
     * when every check passed. `run` is that run and `spec` what loadJsonFromFile made of
     * its output; fresh ids come from `ids`. On success one change message is broadcast
     * and the model is loaded; on failure it is not, and the controls read before a record
     * that is not an object stay.
     */
    method Load(params: map<string, string>, run: HelperRun, spec: Var, ids: UuidSource) returns (ok: bool)
      modifies this`ctrls, this`loaded, this`url, this`card, this`changeMessages, ids
      ensures ok <==> loaded
      ensures "url" !in params ==>
        !ok && ctrls == [] && url == old(url) && card == old(card)
        && changeMessages == old(changeMessages) && ids.issued == old(ids.issued)
      ensures "url" in params ==> url == params["url"]
      ensures "url" in params ==>
        match ReadSpec(run, spec)
        case Stopped(_, source) =>
          !ok && ctrls == [] && changeMessages == old(changeMessages)
          && card == (if source.Some? then CardOf(source.value, Legacy) else old(card))
          && ids.issued == old(ids.issued)
        case Accepted(source, records) =>
          var k := FirstNonObject(records);
          card == CardOf(source, Legacy)
          && ctrls == ParseCtrls(ReadAll(records)[..k], Legacy, old(ids.issued))
          && ids.issued == old(ids.issued) + FreshCount(ReadAll(records)[..k], Legacy)
          && (ok <==> k == |records|)
          && changeMessages == old(changeMessages) + (if ok then 1 else 0)
    {
      ctrls := [];
      loaded := false;
      if "url" !in params {
        return false;
      }
      url := params["url"];
      ok := ReadControls(run, spec, ids);
    }

    /** The rest of load once the url is known: check the helper's run and the spec, in order, and build the card and the controls. */
    method ReadControls(run: HelperRun, spec: Var, ids: UuidSource) returns (ok: bool)
      requires ctrls == [] && !loaded
      modifies this`ctrls, this`loaded, this`card, this`changeMessages, ids
      ensures ok <==> loaded
      ensures match ReadSpec(run, spec)
        case Stopped(_, source) =>
          !ok && ctrls == [] && changeMessages == old(changeMessages)
          && card == (if source.Some? then CardOf(source.value, Legacy) else old(card))
          && ids.issued == old(ids.issued)
        case Accepted(source, records) =>
          var k := FirstNonObject(records);
          card == CardOf(source, Legacy)
          && ctrls == ParseCtrls(ReadAll(records)[..k], Legacy, old(ids.issued))
          && ids.issued == old(ids.issued) + FreshCount(ReadAll(records)[..k], Legacy)
          && (ok <==> k == |records|)
          && changeMessages == old(changeMessages) + (if ok then 1 else 0)
    {
      if run.exitCode != 0 {
        return false;
      }
      if IsVoid(spec) {
        return false;
      }
      var dict := GetDynamicObject(spec);
      if dict.None? {
        return false;
      }
      if !HasProperty(dict.value, "card") {
        return false;
      }
      var jsonCard := GetDynamicObject(GetProperty(dict.value, "card"));
      if jsonCard.None? {
        return false;
      }
      var fields := jsonCard.value;
      card := CardOf(CardSource(fields, []), Legacy);
      var tags := GetArray(GetProperty(fields, "tags"));
      if tags.None? {
        return false;
      }
      AddTags(fields, tags.value);
      if !HasProperty(dict.value, "ctrls") {
        return false;
      }
      var ctrlList := GetArray(GetProperty(dict.value, "ctrls"));
      if ctrlList.None? {
        return false;
      }
      ok := AddCtrls(ctrlList.value, ids);
    }

    /** The tags loop of load: append the text of each tag to the card, which holds the other fields already. */
    method AddTags(fields: Properties, tags: seq<Var>)
      requires card == CardOf(CardSource(fields, []), Legacy)
      modifies this`card
      ensures card == CardOf(CardSource(fields, tags), Legacy)
    {
      var i := 0;
      while i < |tags|
        invariant 0 <= i <= |tags|
        invariant card == CardOf(CardSource(fields, tags[..i]), Legacy)
      {
        card := card.(tags := card.tags + [ToString(tags[i])]);
        assert TagTexts(tags[..i + 1]) == TagTexts(tags[..i]) + [ToString(tags[i])];
        i := i + 1;
      }
      assert tags[..i] == tags;
    }

    /**
     * The control loop of load: add a control for each record of a recognised type, and
     * return false at the first record that is not an object. On completion a change
     * message goes out and the model is loaded.
     */
    method AddCtrls(records: seq<Var>, ids: UuidSource) returns (ok: bool)
      requires ctrls == [] && !loaded
      modifies this`ctrls, this`loaded, this`changeMessages, ids
      ensures var k := FirstNonObject(records);
        ctrls == ParseCtrls(ReadAll(records)[..k], Legacy, old(ids.issued))
        && ids.issued == old(ids.issued) + FreshCount(ReadAll(records)[..k], Legacy)
      ensures ok <==> FirstNonObject(records) == |records|
      ensures loaded == ok
      ensures changeMessages == old(changeMessages) + if ok then 1 else 0
    {
      ghost var first := ids.issued;
      ghost var k := FirstNonObject(records);
      var j := 0;
      while j < |records| && IsObject(records[j])
        invariant 0 <= j <= |records|
        invariant j <= k
        invariant ctrls == ParseCtrls(ReadAll(records)[..j], Legacy, first)
        invariant ids.issued == first + FreshCount(ReadAll(records)[..j], Legacy)
        invariant !loaded && changeMessages == old(changeMessages)
      {
        AddRecord(records, j, first, ids);
        j := j + 1;
      }
      if j < k {
        ObjectsBefore(records, j);
      }
      if j < |records| {
        return false;
      }
      assert ReadAll(records)[..j] == ReadAll(records);
      changeMessages := changeMessages + 1;
      loaded := true;
      return true;
    }

    /** The body of the control loop for record `j`, which is an object: read it and add its control. */
    method AddRecord(records: seq<Var>, j: nat, ghost first: nat, ids: UuidSource)
      requires j < |records|
      requires ctrls == ParseCtrls(ReadAll(records)[..j], Legacy, first)
      requires ids.issued == first + FreshCount(ReadAll(records)[..j], Legacy)
      modifies this`ctrls, ids
      ensures ctrls == ParseCtrls(ReadAll(records)[..j + 1], Legacy, first)
      ensures ids.issued == first + FreshCount(ReadAll(records)[..j + 1], Legacy)
    {
      var read := ReadRecord(records[j]);
      ReadAllNext(records, j);
      ParseAppend(ReadAll(records)[..j], read, Legacy, first);
      AddCtrl(read, ids);
    }

    /** One step of the control loop: a slider gets a fresh id; a text box or an audio input keeps the null one. */
    method AddCtrl(read: Record, ids: UuidSource)
      modifies this`ctrls, ids
      ensures ctrls == old(ctrls) + Added(read, Legacy, old(ids.issued))
      ensures ids.issued == old(ids.issued) + if TakesFreshId(read.kind, Legacy) then 1 else 0
    {
      if Recognised(read.kind, Legacy) {
        var id := Null;
        if TakesFreshId(read.kind, Legacy) {
          id := ids.Next();
        }
        ctrls := ctrls + [(id, MakeCtrl(read, id))];
      }
    }

    /** saveCtrls: write one value per control to the controls file; `writeOk` is whether writing the file succeeds. */
    method SaveCtrls(inputPath: string, writeOk: bool) returns (ok: bool, written: Option<seq<Value>>)
      modifies this`ctrls
      ensures ctrls == OverwriteInputs(old(ctrls), inputPath, Legacy, FirstUnsupported(old(ctrls), Legacy))
      ensures written == if writeOk then Serialize(old(ctrls), inputPath, Legacy) else None
      ensures ok <==> written.Some?
    {
      var visited, values;
      ok, visited, values := SaveValues(ctrls, inputPath, Legacy);
      ctrls := visited;
      if !ok {
        return false, None;
      }
      if !writeOk {
        return false, None;
      }
      written := Some(values);
    }

    /**
     * process: when loaded, save the input buffer to `inputPath` (`bufferSaved` is whether
     * that succeeds), save the controls, run the helper in predict mode and read its output
     * back into the buffer. The helper's run is not consulted: its output is read whatever
     * its exit code.
     */
    method Process(bufferSaved: bool, inputPath: string, writeOk: bool, run: HelperRun) returns (end: ProcessEnd)
      modifies this`ctrls
      ensures !loaded ==> end == NotLoaded && ctrls == old(ctrls)
      ensures loaded && !bufferSaved ==> end == BufferNotSaved && ctrls == old(ctrls)
      ensures loaded && bufferSaved ==>
        ctrls == OverwriteInputs(old(ctrls), inputPath, Legacy, FirstUnsupported(old(ctrls), Legacy))
        && (end == OutputRead <==> writeOk && Serialize(old(ctrls), inputPath, Legacy).Some?)
        && (end != OutputRead ==> end == CtrlsNotSaved)
    {
      if !loaded {
        return NotLoaded;
      }
      if !bufferSaved {
        return BufferNotSaved;
      }
      var ok, _ := SaveCtrls(inputPath, writeOk);
      if !ok {
        return CtrlsNotSaved;
      }
      return OutputRead;
    }

    /** findCtrlByUuid: the position of the first control filed under `id`, or the length when there is none. */
    function FindCtrlByUuid(id: Uuid): (r: nat)
      reads this
      ensures r <= |ctrls|
      ensures r < |ctrls| ==> ctrls[r].0 == id
      ensures forall i :: 0 <= i < r ==> ctrls[i].0 != id
    {
      FindById(ctrls, id)
    }
  }

  /** In the older load only sliders are filed under a fresh id; every other control shares the null id. */
  lemma OnlySlidersFresh(records: seq<Record>, first: nat)
    ensures var r := ParseCtrls(records, Legacy, first);
      forall i :: 0 <= i < |r| ==> (r[i].0.Issued? <==> r[i].1.Slider?) && (!r[i].1.Slider? ==> r[i].0 == Null)
  {
    ParsedIds(records, Legacy, first);
    var r := ParseCtrls(records, Legacy, first);
    forall i | 0 <= i < |r|
      ensures r[i].0.Issued? <==> r[i].1.Slider?
    {
      assert r[i].0.Issued? <==> TakesFreshId(KindOf(r[i].1), Legacy);
    }
  }
}
