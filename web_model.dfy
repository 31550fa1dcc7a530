/**
 * The current WebWave2Wave (src/WebModel.h): a model that runs on a remote space through
 * the gradiojuce helper. It keeps the control list, the model card and two flag files
 * that it shares with the helper: the status file, which the helper rewrites while it
 * works, and the cancel flag, which asks the helper to stop. ModelStatusTimer polls the
 * status and broadcasts a change message whenever it differs from the last one seen.
 */
module WebModel {
  import opened Wrappers
  import opened JuceVar
  import opened Controls
  import opened LoadSpec

  const Initialized := "Status.INITIALIZED"
  const Loaded := "Status.LOADED"
  const Inactive := "Status.INACTIVE"
  const NotLoaded := Failed("Model not loaded")
  const SaveFailed := Failed("Failed to save controls to file.")

  class WebWave2Wave {
    var ctrls: CtrlList
    var loaded: bool
    var url: string
    var card: ModelCard
    /** The text of the status flag file, or none when the file does not exist. */
    var statusFile: Option<string>
    /** Whether the cancel flag file exists. */
    var cancelFlag: bool

    /**
     * Writes "Status.INITIALIZED" to the status file. m_loaded is declared by the Model
     * base class, which is not part of this model, and a cancel flag left behind by an
     * earlier instance is not removed: both start as given.
     */
    constructor(initiallyLoaded: bool, cancelFlagPresent: bool)
      ensures ctrls == [] && loaded == initiallyLoaded && url == "" && card == BlankCard
      ensures statusFile == Some(Initialized) && cancelFlag == cancelFlagPresent
    {
      ctrls := [];
      loaded := initiallyLoaded;
      url := "";
      card := BlankCard;
      statusFile := Some(Initialized);
      cancelFlag := cancelFlagPresent;
    }

    /**
     * load: run the helper in get_ctrls mode and read the control spec it wrote. `run` is
     * that run and `spec` what loadJsonFromFile made of its output; fresh ids come from `ids`.
     * Any failure throws and leaves the model not loaded; a record that is not an object
     * throws after the controls before it have been added.
     */
    method Load(params: map<string, string>, run: HelperRun, spec: Var, ids: UuidSource) returns (outcome: Outcome)
      modifies this`ctrls, this`loaded, this`url, this`card, this`statusFile, ids
      ensures "url" !in params ==>
        outcome == Threw(UrlMissing) && ctrls == [] && !loaded && url == old(url) && card == old(card)
        && statusFile == old(statusFile) && ids.issued == old(ids.issued)
      ensures "url" in params ==> url == params["url"]
      ensures "url" in params ==>
        match ReadSpec(run, spec)
        case Stopped(error, source) =>
          outcome == Threw(error) && ctrls == [] && !loaded && statusFile == old(statusFile)
          && card == (if source.Some? then CardOf(source.value, Current) else old(card))
          && ids.issued == old(ids.issued)
        case Accepted(source, records) =>
          var k := FirstNonObject(records);
          card == CardOf(source, Current)
          && ctrls == ParseCtrls(ReadAll(records)[..k], Current, old(ids.issued))
          && ids.issued == old(ids.issued) + FreshCount(ReadAll(records)[..k], Current)
          && (if k < |records| then outcome == Threw(RecordNotObject) && !loaded && statusFile == old(statusFile)
              else outcome == Returned && loaded && statusFile == Some(Loaded))
    {
      ctrls := [];
      loaded := false;
      if "url" !in params {
        return Threw(UrlMissing);
      }
      url := params["url"];
      outcome := ReadControls(run, spec, ids);
    }

    /** The rest of load once the url is known: check the helper's run and the spec, in order, and build the card and the controls. */
    method ReadControls(run: HelperRun, spec: Var, ids: UuidSource) returns (outcome: Outcome)
      requires ctrls == [] && !loaded
      modifies this`ctrls, this`loaded, this`card, this`statusFile, ids
      ensures match ReadSpec(run, spec)
        case Stopped(error, source) =>
          outcome == Threw(error) && ctrls == [] && !loaded && statusFile == old(statusFile)
          && card == (if source.Some? then CardOf(source.value, Current) else old(card))
          && ids.issued == old(ids.issued)
        case Accepted(source, records) =>
          var k := FirstNonObject(records);
          card == CardOf(source, Current)
          && ctrls == ParseCtrls(ReadAll(records)[..k], Current, old(ids.issued))
          && ids.issued == old(ids.issued) + FreshCount(ReadAll(records)[..k], Current)
          && (if k < |records| then outcome == Threw(RecordNotObject) && !loaded && statusFile == old(statusFile)
              else outcome == Returned && loaded && statusFile == Some(Loaded))
    {
      if run.exitCode != 0 {
        return Threw(HelperFailure("get_ctrls", run.log));
      }
      if IsVoid(spec) {
        return Threw(SpecVoid);
      }
      var dict := GetDynamicObject(spec);
      if dict.None? {
        return Threw(DictNull);
      }
      if !HasProperty(dict.value, "card") {
        return Threw(CardMissing);
      }
      var jsonCard := GetDynamicObject(GetProperty(dict.value, "card"));
      if jsonCard.None? {
        return Threw(CardNotObject);
      }
      var fields := jsonCard.value;
      card := CardOf(CardSource(fields, []), Current);
      var tags := GetArray(GetProperty(fields, "tags"));
      if tags.None? {
        return Threw(TagsNull);
      }
      AddTags(fields, tags.value);
      if !HasProperty(dict.value, "ctrls") {
        return Threw(CtrlsMissing);
      }
      var ctrlList := GetArray(GetProperty(dict.value, "ctrls"));
      if ctrlList.None? {
        return Threw(CtrlsNull);
      }
      outcome := AddCtrls(ctrlList.value, ids);
    }

    /** The tags loop of load: append the text of each tag to the card, which holds the other fields already. */
    method AddTags(fields: Properties, tags: seq<Var>)
      requires card == CardOf(CardSource(fields, []), Current)
      modifies this`card
      ensures card == CardOf(CardSource(fields, tags), Current)
    {
      var i := 0;
      while i < |tags|
        invariant 0 <= i <= |tags|
        invariant card == CardOf(CardSource(fields, tags[..i]), Current)
      {
        card := card.(tags := card.tags + [ToString(tags[i])]);
        assert TagTexts(tags[..i + 1]) == TagTexts(tags[..i]) + [ToString(tags[i])];
        i := i + 1;
      }
      assert tags[..i] == tags;
    }

    /**
     * The control loop of load: add a control for each record of a recognised type, and
     * throw at the first record that is not an object. On completion the model is loaded.
     */
    method AddCtrls(records: seq<Var>, ids: UuidSource) returns (outcome: Outcome)
      requires ctrls == [] && !loaded
      modifies this`ctrls, this`loaded, this`statusFile, ids
      ensures var k := FirstNonObject(records);
        ctrls == ParseCtrls(ReadAll(records)[..k], Current, old(ids.issued))
        && ids.issued == old(ids.issued) + FreshCount(ReadAll(records)[..k], Current)
      ensures FirstNonObject(records) < |records| ==>
        outcome == Threw(RecordNotObject) && !loaded && statusFile == old(statusFile)
      ensures FirstNonObject(records) == |records| ==> outcome == Returned && loaded && statusFile == Some(Loaded)
    {
      ghost var first := ids.issued;
      ghost var k := FirstNonObject(records);
      var j := 0;
      while j < |records| && IsObject(records[j])
        invariant 0 <= j <= |records|
        invariant j <= k
        invariant ctrls == ParseCtrls(ReadAll(records)[..j], Current, first)
        invariant ids.issued == first + FreshCount(ReadAll(records)[..j], Current)
        invariant !loaded && statusFile == old(statusFile)
      {
        AddRecord(records, j, first, ids);
        j := j + 1;
      }
      if j < k {
        ObjectsBefore(records, j);
      }
      if j < |records| {
        return Threw(RecordNotObject);
      }
      assert ReadAll(records)[..j] == ReadAll(records);
      loaded := true;
      statusFile := Some(Loaded);
      return Returned;
    }

    /** The body of the control loop for record `j`, which is an object: read it and add its control. */
    method AddRecord(records: seq<Var>, j: nat, ghost first: nat, ids: UuidSource)
      requires j < |records|
      requires ctrls == ParseCtrls(ReadAll(records)[..j], Current, first)
      requires ids.issued == first + FreshCount(ReadAll(records)[..j], Current)
      modifies this`ctrls, ids
      ensures ctrls == ParseCtrls(ReadAll(records)[..j + 1], Current, first)
      ensures ids.issued == first + FreshCount(ReadAll(records)[..j + 1], Current)
    {
      var read := ReadRecord(records[j]);
      ReadAllNext(records, j);
      ParseAppend(ReadAll(records)[..j], read, Current, first);
      AddCtrl(read, ids);
    }

    /** One step of the control loop: add a control for a record of a recognised type, with a fresh id when its type takes one. */
    method AddCtrl(read: Record, ids: UuidSource)
      modifies this`ctrls, ids
      ensures ctrls == old(ctrls) + Added(read, Current, old(ids.issued))
      ensures ids.issued == old(ids.issued) + if TakesFreshId(read.kind, Current) then 1 else 0
    {
      if Recognised(read.kind, Current) {
        var id := Null;
        if TakesFreshId(read.kind, Current) {
          id := ids.Next();
        }
        ctrls := ctrls + [(id, MakeCtrl(read, id))];
      }
    }

    /** saveCtrls: write one value per control to the controls file; `writeOk` is whether writing the file succeeds. */
    method SaveCtrls(inputPath: string, writeOk: bool) returns (ok: bool, written: Option<seq<Value>>)
      modifies this`ctrls
      ensures ctrls == OverwriteInputs(old(ctrls), inputPath, Current, FirstUnsupported(old(ctrls), Current))
      ensures written == if writeOk then Serialize(old(ctrls), inputPath, Current) else None
      ensures ok <==> written.Some?
    {
      var visited, values;
      ok, visited, values := SaveValues(ctrls, inputPath, Current);
      ctrls := visited;
      if !ok {
        return false, None;
      }
      if !writeOk {
        return false, None;
      }
      written := Some(values);
    }

    /**
     * process: clear the cancel flag, save the controls with the copied input's path and
     * run the helper in predict mode. While it runs the helper rewrites the status file
     * (`statusAfterRun`) and the user may raise the cancel flag (`cancelAfterRun`); the
     * flag is cleared again only when the helper succeeds.
     */
    method Process(inputCopyPath: string, writeOk: bool, run: HelperRun, statusAfterRun: Option<string>,
                   cancelAfterRun: bool) returns (outcome: Outcome)
      modifies this`ctrls, this`statusFile, this`cancelFlag
      ensures !old(loaded) ==>
        outcome == Threw(NotLoaded) && !cancelFlag && ctrls == old(ctrls) && statusFile == old(statusFile)
      ensures old(loaded) ==>
        ctrls == OverwriteInputs(old(ctrls), inputCopyPath, Current, FirstUnsupported(old(ctrls), Current))
      ensures old(loaded) && (Serialize(old(ctrls), inputCopyPath, Current).None? || !writeOk) ==>
        outcome == Threw(SaveFailed) && !cancelFlag && statusFile == old(statusFile)
      ensures old(loaded) && Serialize(old(ctrls), inputCopyPath, Current).Some? && writeOk ==>
        statusFile == statusAfterRun
        && (if run.exitCode != 0 then outcome == Threw(HelperFailure("predict", run.log)) && cancelFlag == cancelAfterRun
            else outcome == Returned && !cancelFlag)
    {
      cancelFlag := false;
      if !loaded {
        return Threw(NotLoaded);
      }
      var ok, _ := SaveCtrls(inputCopyPath, writeOk);
      if !ok {
        return Threw(SaveFailed);
      }
      statusFile := statusAfterRun;
      cancelFlag := cancelAfterRun;
      if run.exitCode != 0 {
        return Threw(HelperFailure("predict", run.log));
      }
      cancelFlag := false;
      return Returned;
    }

    /** cancel: delete the cancel flag file and create it again, so that it exists. */
    method Cancel()
      modifies this`cancelFlag
      ensures cancelFlag
    {
      cancelFlag := false;
      cancelFlag := true;
    }

    /** getStatus: the status file's text, or "Status.INACTIVE" when there is no status file. */
    function GetStatus(): (r: string)
      reads this
      ensures statusFile.Some? ==> r == statusFile.value
      ensures statusFile.None? ==> r == Inactive
    {
      if statusFile.None? then Inactive else statusFile.value
    }

    /** findCtrlByUuid: the position of the first control filed under `id`, or the length when there is none. */
    function FindCtrlByUuid(id: Uuid): (r: nat)
      reads this
      ensures r <= |ctrls|
      ensures r < |ctrls| ==> ctrls[r].0 == id
      ensures forall i :: 0 <= i < r ==> ctrls[i].0 != id
    {
      FindById(ctrls, id)
    }
  }

  /** A timer that polls a model's status and broadcasts a change message whenever it changes. */
  class ModelStatusTimer {
    const model: WebWave2Wave
    var lastStatus: string
    /** How many change messages have been sent. */
    var changeMessages: nat

    constructor(model: WebWave2Wave)
      ensures this.model == model && lastStatus == "" && changeMessages == 0
    {
      this.model := model;
      lastStatus := "";
      changeMessages := 0;
    }

    /** timerCallback: remember the model's status, and broadcast when it differs from the last one seen. */
    method TimerCallback()
      modifies this
      ensures lastStatus == model.GetStatus()
      ensures changeMessages == old(changeMessages) + if old(lastStatus) == model.GetStatus() then 0 else 1
    {
      var status := model.GetStatus();
      if status != lastStatus {
        lastStatus := status;
        changeMessages := changeMessages + 1;
      }
    }
  }
}
