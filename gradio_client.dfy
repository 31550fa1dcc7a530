/**
 * The GradioClient: the space it talks to, the checks it runs on each HTTP reply, and
 * the three-step exchange that fetches a model's controls and card. Transport and JSON
 * parsing are not modelled: a request's outcome is a parameter, and so is the JSON parser.
 */
module Gradio {
  import opened Wrappers
  import opened JuceString
  import opened JuceVar
  import opened SpaceAddress

  /** What an HTTP request gives back: no stream at all, or a status code and the body text. */
  datatype HttpReply = NoStream | Reply(statusCode: int, body: string)

  /** The two out-parameters a request helper writes: its result text and the error text. */
  datatype Written = Written(value: string, error: string)

  /** juce::JSON::parse, taken as given: the var a text parses to (void when it is not JSON). */
  type JsonParser = string -> Var

  /**
   * extractKeyFromResponse: the text after the first occurrence of `key`, trimmed. When
   * the key is missing the error is set and the result keeps its previous value.
   */
  function ExtractKeyFromResponse(response: string, responseKey: string, key: string, error: string): (r: Written)
    ensures !Contains(response, key) ==> r == Written(responseKey, "Key " + key + " not found in response")
    ensures Contains(response, key) ==> r.error == error && IsTrimmed(FromFirstOccurrenceOf(response, key), r.value)
  {
    if IndexOf(response, key) == -1 then Written(responseKey, "Key " + key + " not found in response")
    else Written(Trim(FromFirstOccurrenceOf(response, key)), error)
  }

  /** In an event-stream reply whose preamble cannot start the key, the payload after the key is what comes out. */
  lemma ExtractAfterPreamble(preamble: string, key: string, payload: string, responseKey: string, error: string)
    requires key != [] && key[0] !in preamble
    ensures ExtractKeyFromResponse(preamble + key + payload, responseKey, key, error) == Written(Trim(payload), error)
  {
    var response := preamble + key + payload;
    assert response == preamble + (key + payload);
    KeyStartsAfter(preamble, key + payload, key);
    assert response[|preamble|..|preamble| + |key|] == key;
    IndexOfIsFirst(response, key, |preamble|);
    assert response[|preamble| + |key|..] == payload;
  }

  /** An upload the client accepts: status 200 and a non-empty array whose first element has text. */
  predicate UploadAccepted(reply: HttpReply, parse: JsonParser) {
    reply.Reply? && reply.statusCode == 200 && parse(reply.body).Array?
    && parse(reply.body).items != [] && ToString(parse(reply.body).items[0]) != ""
  }

  /** uploadFileRequest: the checks on the reply to a file upload. */
  function UploadFileRequest(reply: HttpReply, parse: JsonParser, uploadedFilePath: string, error: string): (r: Written)
    ensures UploadAccepted(reply, parse) ==> r == Written(ToString(parse(reply.body).items[0]), error)
    ensures !UploadAccepted(reply, parse) ==> r.error != "" && (r.value == uploadedFilePath || r.value == "")
    ensures !(reply.Reply? && reply.statusCode == 200 && parse(reply.body).Array? && parse(reply.body).items != []) ==>
      r.value == uploadedFilePath
    ensures reply.Reply? && reply.statusCode == 200 && parse(reply.body).Array? && parse(reply.body).items != []
            && ToString(parse(reply.body).items[0]) == "" ==>
      r == Written("", "File path not found in the response.")
    ensures reply.Reply? && reply.statusCode != 200 ==>
      r == Written(uploadedFilePath, "Request failed with status code: " + IntToString(reply.statusCode))
  {
    match reply
    case NoStream => Written(uploadedFilePath, "Failed to create input stream for file upload request.")
    case Reply(status, body) =>
      if status != 200 then Written(uploadedFilePath, "Request failed with status code: " + IntToString(status))
      else
        var parsed := parse(body);
        if !IsObject(parsed) then Written(uploadedFilePath, "Failed to parse JSON response.")
        else
          match GetArray(parsed)
          case None => Written(uploadedFilePath, "Parsed JSON does not contain the expected file path.")
          case Some(items) =>
            if items == [] then Written(uploadedFilePath, "Parsed JSON does not contain the expected file path.")
            else
              var path := ToString(GetFirst(items));
              if path == "" then Written(path, "File path not found in the response.")
              else Written(path, error)
  }

  /** A submission the client accepts: status 200 and a JSON object whose "event_id" has text. */
  predicate EventAccepted(reply: HttpReply, parse: JsonParser) {
    reply.Reply? && reply.statusCode == 200 && parse(reply.body).Object?
    && ToString(GetProperty(parse(reply.body).properties, "event_id")) != ""
  }

  /** makePostRequestForEventID: the checks on the reply to a call submission. */
  function MakePostRequestForEventID(endpoint: string, reply: HttpReply, parse: JsonParser, eventID: string,
                                     error: string): (r: Written)
    ensures EventAccepted(reply, parse) ==>
      r == Written(ToString(GetProperty(parse(reply.body).properties, "event_id")), error)
    ensures !EventAccepted(reply, parse) ==> r.error != "" && (r.value == eventID || r.value == "")
    ensures !(reply.Reply? && reply.statusCode == 200 && parse(reply.body).Object?) ==> r.value == eventID
    ensures reply.Reply? && reply.statusCode == 200 && parse(reply.body).Object?
            && ToString(GetProperty(parse(reply.body).properties, "event_id")) == "" ==>
      r == Written("", "event_id not found in the response from " + endpoint)
    ensures reply.Reply? && reply.statusCode != 200 ==>
      r == Written(eventID, "Request to " + endpoint + " failed with status code: " + IntToString(reply.statusCode))
  {
    match reply
    case NoStream => Written(eventID, "Failed to create input stream for POST request to " + endpoint)
    case Reply(status, body) =>
      if status != 200 then
        Written(eventID, "Request to " + endpoint + " failed with status code: " + IntToString(status))
      else
        var parsed := parse(body);
        if !IsObject(parsed) then Written(eventID, "Failed to parse JSON response from " + endpoint)
        else
          match GetDynamicObject(parsed)
          case None => Written(eventID, "Parsed JSON is not an object from " + endpoint)
          case Some(properties) =>
            var id := ToString(GetProperty(properties, "event_id"));
            if id == "" then Written(id, "event_id not found in the response from " + endpoint)
            else Written(id, error)
  }

  /** Every message a rejected submission leaves names the endpoint it was sent to. */
  lemma PostFailureNamesEndpoint(endpoint: string, reply: HttpReply, parse: JsonParser, eventID: string, error: string)
    requires !EventAccepted(reply, parse)
    ensures Contains(MakePostRequestForEventID(endpoint, reply, parse, eventID, error).error, endpoint)
  {
    var r := MakePostRequestForEventID(endpoint, reply, parse, eventID, error);
    match reply
    case NoStream =>
      NamesAtEnd("Failed to create input stream for POST request to ", endpoint);
    case Reply(status, body) =>
      if status != 200 {
        var tail := " failed with status code: " + IntToString(status);
        ContainsBetween("Request to ", endpoint, tail);
        assert r.error == "Request to " + endpoint + tail;
      } else if !IsObject(parse(body)) {
        NamesAtEnd("Failed to parse JSON response from ", endpoint);
      } else if parse(body).Array? {
        NamesAtEnd("Parsed JSON is not an object from ", endpoint);
      } else {
        NamesAtEnd("event_id not found in the response from ", endpoint);
      }
  }

  lemma NamesAtEnd(message: string, endpoint: string)
    ensures Contains(message + endpoint, endpoint)
  {
    ContainsBetween(message, endpoint, "");
    assert message + endpoint + "" == message + endpoint;
  }

  /**
   * getResponseFromEventID: the body of the result request. Its status code is not
   * looked at; only a missing stream is an error.
   */
  function GetResponseFromEventID(reply: HttpReply, response: string, error: string): (r: Written)
    ensures reply.NoStream? ==> r.value == response && r.error != ""
    ensures reply.Reply? ==> r == Written(reply.body, error)
  {
    match reply
    case NoStream => Written(response, "Failed to create input stream for GET request.")
    case Reply(_, body) => Written(body, error)
  }

  const ControlsEndpoint := "controls"
  const CardNotDict := "Couldn't load the modelCard dict from the controls response."
  const CtrlsNotArray := "Couldn't load the controls array/list from the controls response."
  const DataKey := "data: "

  /** How getControls ends: which out-parameters it wrote and with what. */
  datatype ControlsOutcome =
    | Failed(message: string)                              // nothing but the error was written
    | CardOnly(card: Properties, message: string)          // the card was replaced, then the error set
    | Fetched(card: Properties, ctrls: seq<Var>)           // card and control list replaced, error untouched

  /** The shape checks getControls runs on the parsed data line, once all three requests went through. */
  function CheckControlsData(parsed: Var): (r: ControlsOutcome)
    ensures r.Fetched? <==>
      parsed.Array? && GetFirst(parsed.items).Object?
      && Member(GetFirst(parsed.items), "card").Object? && Member(GetFirst(parsed.items), "ctrls").Array?
    ensures r.Fetched? ==> r.ctrls == Member(GetFirst(parsed.items), "ctrls").items
    ensures r.CardOnly? ==>
      parsed.Array? && GetFirst(parsed.items).Object? && Member(GetFirst(parsed.items), "card").Object?
      && r.card == Member(GetFirst(parsed.items), "card").properties
    ensures parsed.Array? && GetFirst(parsed.items).Object? && Member(GetFirst(parsed.items), "card").Object?
            && !Member(GetFirst(parsed.items), "ctrls").Array? ==>
      r == CardOnly(Member(GetFirst(parsed.items), "card").properties, CtrlsNotArray)
    ensures !IsObject(parsed) ==> r == Failed("Failed to parse the data portion of the received controls JSON.")
    ensures parsed.Object? ==> r == Failed("Parsed JSON is not an array.")
    ensures parsed.Array? && !GetFirst(parsed.items).Object? ==> r == Failed("First element in the array is not a dict.")
    ensures parsed.Array? && GetFirst(parsed.items).Object? && !Member(GetFirst(parsed.items), "card").Object? ==>
      r == Failed(CardNotDict)
  {
    if !IsObject(parsed) then Failed("Failed to parse the data portion of the received controls JSON.")
    else if !IsArray(parsed) then Failed("Parsed JSON is not an array.")
    else
      match GetDynamicObject(GetFirst(parsed.items))
      case None => Failed("First element in the array is not a dict.")
      case Some(obj) => CheckEntry(obj)
  }

  /** The checks on the first element of the data array: its "card" must be an object and its "ctrls" an array. */
  function CheckEntry(obj: Properties): (r: ControlsOutcome)
    ensures r.Fetched? <==> GetProperty(obj, "card").Object? && GetProperty(obj, "ctrls").Array?
    ensures r.Fetched? ==> r.ctrls == GetProperty(obj, "ctrls").items
    ensures r.CardOnly? ==> GetProperty(obj, "card").Object? && r.card == GetProperty(obj, "card").properties
    ensures !GetProperty(obj, "card").Object? ==> r == Failed(CardNotDict)
    ensures GetProperty(obj, "card").Object? && !GetProperty(obj, "ctrls").Array? ==>
      r == CardOnly(GetProperty(obj, "card").properties, CtrlsNotArray)
  {
    match GetDynamicObject(GetProperty(obj, "card"))
    case None => Failed(CardNotDict)
    case Some(card) =>
      match GetArray(GetProperty(obj, "ctrls"))
      case None => CardOnly(card, CtrlsNotArray)
      case Some(ctrls) => Fetched(card, ctrls)
  }

  /**
   * getControls as a whole: submit, fetch the result, cut out its data line, then check
   * its shape. Each step runs only while the error text is empty.
   */
  function Controls(error: string, post: HttpReply, get: HttpReply, parse: JsonParser): ControlsOutcome {
    var submitted := MakePostRequestForEventID(ControlsEndpoint, post, parse, "", error);
    if submitted.error != "" then Failed(submitted.error)
    else
      var fetched := GetResponseFromEventID(get, "", submitted.error);
      if fetched.error != "" then Failed(fetched.error)
      else
        var data := ExtractKeyFromResponse(fetched.value, "", DataKey, fetched.error);
        if data.error != "" then Failed(data.error)
        else CheckControlsData(parse(data.value))
  }

  /**
   * An error already pending when getControls is called stops it after the submission: the
   * result is never looked at, and the error is the one the submission step leaves.
   */
  lemma PendingErrorStopsControls(error: string, post: HttpReply, get: HttpReply, get': HttpReply,
                                  parse: JsonParser)
    requires error != ""
    ensures Controls(error, post, get, parse) == Controls(error, post, get', parse)
    ensures Controls(error, post, get, parse) == Failed(MakePostRequestForEventID(ControlsEndpoint, post, parse, "", error).error)
  {
  }

  /** A rejected submission ends getControls before the result is even requested. */
  lemma RejectedSubmissionStopsControls(error: string, post: HttpReply, get: HttpReply, get': HttpReply,
                                        parse: JsonParser)
    requires !EventAccepted(post, parse)
    ensures Controls(error, post, get, parse) == Controls(error, post, get', parse)
    ensures Controls(error, post, get, parse) == Failed(MakePostRequestForEventID(ControlsEndpoint, post, parse, "", error).error)
  {
  }

  /**
   * With no error pending, getControls reaches the shape checks exactly when the
   * submission is accepted, the result request yields a stream and that stream holds a
   * data line; what it then reports depends on that data line alone.
   */
  lemma ControlsReachShapeChecks(post: HttpReply, get: HttpReply, parse: JsonParser)
    requires EventAccepted(post, parse) && get.Reply? && Contains(get.body, DataKey)
    ensures Controls("", post, get, parse)
         == CheckControlsData(parse(Trim(FromFirstOccurrenceOf(get.body, DataKey))))
  {
  }

  /** A reply without a data line is reported as such, naming the key. */
  lemma MissingDataLine(post: HttpReply, get: HttpReply, parse: JsonParser)
    requires EventAccepted(post, parse) && get.Reply? && !Contains(get.body, DataKey)
    ensures Controls("", post, get, parse) == Failed("Key " + DataKey + " not found in response")
  {
  }

  class GradioClient {
    var spaceInfo: SpaceInfo

    /** The default-constructed client; SpaceInfo's own defaults are not part of this model. */
    constructor(initial: SpaceInfo)
      ensures spaceInfo == initial
    {
      spaceInfo := initial;
    }

    /** setSpaceInfo: parse the address into the client's own space info. */
    method SetSpaceInfo(url: string)
      modifies this
      ensures spaceInfo == ParseSpaceAddress(url, old(spaceInfo))
    {
      spaceInfo := ParseSpaceAddress(url, spaceInfo);
    }

    /**
     * getControls. The card dictionary is cleared and refilled as soon as the card is
     * found, before the control list is looked for; the list is written last.
     */
    method GetControls(ctrlList: seq<Var>, cardDict: DynamicObject, error: string,
                       post: HttpReply, get: HttpReply, parse: JsonParser)
      returns (newCtrlList: seq<Var>, newError: string)
      modifies cardDict
      ensures match Controls(error, post, get, parse)
        case Failed(message) =>
          newError == message && newCtrlList == ctrlList && cardDict.properties == old(cardDict.properties)
        case CardOnly(card, message) =>
          newError == message && newCtrlList == ctrlList && cardDict.properties == Copied(card)
        case Fetched(card, ctrls) =>
          newError == error && newCtrlList == ctrls && cardDict.properties == Copied(card)
    {
      newCtrlList, newError := ctrlList, error;
      var submitted := MakePostRequestForEventID(ControlsEndpoint, post, parse, "", newError);
      newError := submitted.error;
      if newError != "" {
        return;
      }
      var fetched := GetResponseFromEventID(get, "", newError);
      newError := fetched.error;
      if newError != "" {
        return;
      }
      var data := ExtractKeyFromResponse(fetched.value, "", DataKey, newError);
      newError := data.error;
      if newError != "" {
        return;
      }
      assert Controls(error, post, get, parse) == CheckControlsData(parse(data.value));
      newCtrlList, newError := ApplyControlsData(parse(data.value), ctrlList, cardDict, error);
    }

    /** The part of getControls after the data line is parsed: the shape checks and the copying. */
    method ApplyControlsData(parsed: Var, ctrlList: seq<Var>, cardDict: DynamicObject, error: string)
      returns (newCtrlList: seq<Var>, newError: string)
      modifies cardDict
      ensures match CheckControlsData(parsed)
        case Failed(message) =>
          newError == message && newCtrlList == ctrlList && cardDict.properties == old(cardDict.properties)
        case CardOnly(card, message) =>
          newError == message && newCtrlList == ctrlList && cardDict.properties == Copied(card)
        case Fetched(card, ctrls) =>
          newError == error && newCtrlList == ctrls && cardDict.properties == Copied(card)
    {
      newCtrlList, newError := ctrlList, error;
      if !IsObject(parsed) {
        newError := "Failed to parse the data portion of the received controls JSON.";
        return;
      }
      if !IsArray(parsed) {
        newError := "Parsed JSON is not an array.";
        return;
      }
      var obj := GetDynamicObject(GetFirst(parsed.items));
      if obj.None? {
        newError := "First element in the array is not a dict.";
        return;
      }
      newCtrlList, newError := ApplyEntry(obj.value, ctrlList, cardDict, error);
    }

    /** The rest of getControls once the first element is known to be a dict: copy its card, then take its controls. */
    method ApplyEntry(obj: Properties, ctrlList: seq<Var>, cardDict: DynamicObject, error: string)
      returns (newCtrlList: seq<Var>, newError: string)
      modifies cardDict
      ensures match CheckEntry(obj)
        case Failed(message) =>
          newError == message && newCtrlList == ctrlList && cardDict.properties == old(cardDict.properties)
        case CardOnly(card, message) =>
          newError == message && newCtrlList == ctrlList && cardDict.properties == Copied(card)
        case Fetched(card, ctrls) =>
          newError == error && newCtrlList == ctrls && cardDict.properties == Copied(card)
    {
      newCtrlList, newError := ctrlList, error;
      var cardObj := GetDynamicObject(GetProperty(obj, "card"));
      if cardObj.None? {
        newError := CardNotDict;
        return;
      }
      CopyCard(cardObj.value, cardDict);
      var ctrlArray := GetArray(GetProperty(obj, "ctrls"));
      if ctrlArray.None? {
        newError := CtrlsNotArray;
        return;
      }
      newCtrlList := ctrlArray.value;
    }

    /** The card copy of getControls: clear the dictionary, then set each property of the card on it, in order. */
    method CopyCard(card: Properties, cardDict: DynamicObject)
      modifies cardDict
      ensures cardDict.properties == Copied(card)
    {
      cardDict.Clear();
      var i := 0;
      while i < |card|
        invariant 0 <= i <= |card|
        invariant cardDict.properties == Copied(card[..i])
      {
        assert card[..i + 1][..i] == card[..i];
        cardDict.SetProperty(card[i].0, card[i].1);
        i := i + 1;
      }
      assert card[..i] == card;
    }
  }
}
