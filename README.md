# HARP web models in Dafny

A Dafny model of the part of HARP that talks to a model hosted on a Gradio space. It covers three pieces of sequential logic.

- **The Gradio client** (`src/gradio/GradioClient.cpp`). `parseSpaceAddress` turns the address a user types into a `SpaceInfo`. It tries a local or tunnelled server, a huggingface.co page, an hf.space subdomain, the `user/model` shorthand, and otherwise reports an error. The other modelled parts are the checks on the replies to an upload and to a call submission, `extractKeyFromResponse`, and the three steps of `getControls` followed by its shape checks.
- **The current `WebWave2Wave`** (`src/WebModel.h`). Covered here:
  - the `Ctrl` variants;
  - `load`, which runs the gradiojuce helper, checks the control spec it writes and builds the model card and the control list;
  - `saveCtrls` and `findCtrlByUuid`;
  - the status and cancel flag files, which `cancel`, `getStatus` and `process` touch;
  - `ModelStatusTimer::timerCallback`.
- **The older `WebWave2Wave`** (`Source/DeepLearning/WebModel.h`). Its `load` returns false instead of throwing. It knows no MIDI input, gives a fresh id to sliders only, and leaves `m_loaded` uninitialised. Its `process` only checks the loaded flag.

## Modules

| module | file | holds |
|---|---|---|
| `Wrappers` | `wrappers.dfy` | `Option` |
| `JuceString` | `juce_string.dfy` | the `juce::String` operations the client uses: `indexOf`, `contains`, `trim`, `replaceCharacter`, `fromFirstOccurrenceOf`, `upToFirstOccurrenceOf`, `StringArray::fromTokens` (which keeps empty pieces) and `matchesWildcard` |
| `JuceVar` | `juce_var.dfy` | `juce::var` as a datatype (void, bool, number, text, object, array) and `DynamicObject` as a class |
| `SpaceAddress` | `space_address.dfy` | `SpaceInfo` and `parseSpaceAddress` |
| `Gradio` | `gradio_client.dfy` | the reply checks, `getControls` and the `GradioClient` class |
| `Controls` | `controls.dfy` | `Uuid`, the `Ctrl` variants, reading a control record, the list `load` builds, `saveCtrls`'s loop and `findCtrlByUuid` |
| `LoadSpec` | `load_spec.dfy` | the checks `load` makes on the helper's run and on the spec JSON, with their messages, and the model card |
| `WebModel` | `web_model.dfy` | the current `WebWave2Wave` and `ModelStatusTimer` |
| `DeepLearning` | `deep_learning_web_model.dfy` | the older `WebWave2Wave` |

## How the model stands in for the outside world

- **Runs, replies and parsing.**
  - The helper's run is a parameter: its exit code and its log.
  - An HTTP reply is a parameter: no stream, or a status code and a body.
  - The JSON parser is a parameter of type `string -> Var`.
  - What `loadJsonFromFile` returned is a `Var` parameter.
- **Flag files.** The status file is an `Option<string>` field (none when the file does not exist). The cancel flag is a `bool` field. What the helper writes to them while it runs is a parameter of `process`.
- **Ids.** `juce::Uuid()` is a counter (`UuidSource`). Every id it hands out differs from all earlier ones. The shared default id every control starts with is `Null`.
- **Numbers.** Numeric control fields keep the text `getFloatValue` reads them from.
- **Ctrl variants.** `Plain` is the base `Ctrl` struct itself. `saveCtrls` accepts no variant for it, which makes its failure branch reachable.

## Model

| member | source | states |
|---|---|---|
| SpaceAddress.ParseSpaceAddress | src/gradio/GradioClient.cpp:20-146 | `userInput` is always the address. The status is LOCALHOST exactly when the address holds "localhost" or "gradio.live", or matches `*.*.*.*:*`; then both URLs are the address and everything else, names and error included, is left as it was. An error writes only the status, the input and the message. A success keeps the earlier error text. |
| SpaceAddress.ParseIsIdempotent | src/gradio/GradioClient.cpp:20-146 | Parsing the same address a second time changes nothing. |
| SpaceAddress.SuccessIgnoresPrevious | src/gradio/GradioClient.cpp:20-146 | A parse that names a space gives the same result whatever the space info held before, except for the carried-over error text. |
| SpaceAddress.SuccessShape | src/gradio/GradioClient.cpp:124-133 | On success the user and model are non-empty and the model name has no underscore. The gradio URL is `https://user-model.hf.space`. The page URL spells the model with underscores. |
| SpaceAddress.HuggingFacePageRule | src/gradio/GradioClient.cpp:36-60 | A huggingface.co page address with fewer than two path pieces gives the "too few parts" error. Otherwise it succeeds exactly when pieces 0 and 1 are non-empty, and those pieces become the user and the model; further pieces are ignored. |
| SpaceAddress.SubdomainRule | src/gradio/GradioClient.cpp:61-91 | An hf.space address is split at the first hyphen of the text between "://" and ".hf.space". With no hyphen it gives the "no hyphen" error quoting that subdomain. An address without "://" is always refused. |
| SpaceAddress.ShorthandRule | src/gradio/GradioClient.cpp:93-114 | A `user/model` address without "http" needs exactly one slash, or it gives the "too many/few slashes" error. It succeeds exactly when both sides are non-empty. |
| SpaceAddress.UnrecognisedRule | src/gradio/GradioClient.cpp:115-122 | An address that matches no rule gives the "Invalid URL" error quoting it. |
| SpaceAddress.LocalWildcardMeaning | src/gradio/GradioClient.cpp:24-25 | The wildcard `*.*.*.*:*` accepts exactly the texts that hold three dots and then a colon, in that order. |
| SpaceAddress.FewDotsNotLocal | src/gradio/GradioClient.cpp:24-25 | A text with fewer than three dots never matches that wildcard. |
| SpaceAddress.GradioUrlNotLocal | src/gradio/GradioClient.cpp:130 | The gradio URL built from plain names (no dot, no slash, no "localhost") is never taken for a local address. |
| SpaceAddress.ParseGradioUrl | src/gradio/GradioClient.cpp:61-133 | Parsing the gradio URL of a hyphen-free user and an underscore-free model gives back that user and model, with status GRADIO and both URLs rebuilt. |
| SpaceAddress.GradioUrlRoundTrip | src/gradio/GradioClient.cpp:61-133 | Reparsing the gradio URL of a successful parse names the same space, with the same URLs, when the user has no hyphen. |
| SpaceAddress.HyphenatedUserIsSplit | src/gradio/GradioClient.cpp:68-76 | A user name that holds a hyphen never comes back from its own gradio URL, because the split happens at the first hyphen. |
| SpaceAddress.PageUrlNotLocal | src/gradio/GradioClient.cpp:128 | The page URL built from plain names is never taken for a local address. |
| SpaceAddress.ParseHuggingFaceUrl | src/gradio/GradioClient.cpp:36-133 | Parsing the page URL of a plain user and a hyphen-free model gives back that user, with the model's underscores turned into hyphens and status HUGGINGFACE. |
| SpaceAddress.HuggingFaceUrlRoundTrip | src/gradio/GradioClient.cpp:36-133 | Reparsing the page URL of a successful parse names the same space, with the same URLs. |
| Gradio.ExtractKeyFromResponse | src/gradio/GradioClient.cpp:3-18 | A missing key sets the "Key … not found in response" error and leaves the result as it was. Otherwise the error is untouched and the result is the text after the key's first occurrence, trimmed: a slice of it that neither starts nor ends with whitespace, with only whitespace cut away on either side. |
| JuceString.TrimmedIsTrim | src/gradio/GradioClient.cpp:17 | A text has one trimmed form only: any slice with only whitespace around it and none at its own ends is what `trim` returns. |
| Gradio.ExtractAfterPreamble | src/gradio/GradioClient.cpp:3-18 | In an event-stream body whose preamble cannot start the key, the trimmed payload after the key comes out. |
| Gradio.UploadFileRequest | src/gradio/GradioClient.cpp:155-219 | An upload is accepted exactly when the status is 200 and the reply is a non-empty array whose first element has text; that text becomes the path. Any other reply sets an error. The old path is kept unless the first element's text is empty, which empties the path with the "File path not found" error. A non-200 status reports its code. |
| Gradio.MakePostRequestForEventID | src/gradio/GradioClient.cpp:221-282 | A submission is accepted exactly when the status is 200 and the reply is an object whose "event_id" has text; that id comes out. Any other reply sets an error. The old id is kept unless the reply is an object without an "event_id" text, which empties the id with the "event_id not found" error. A non-200 status reports the endpoint and the code. |
| Gradio.PostFailureNamesEndpoint | src/gradio/GradioClient.cpp:246-281 | Every error message of a rejected submission names the endpoint. |
| Gradio.GetResponseFromEventID | src/gradio/GradioClient.cpp:284-315 | A missing stream sets an error and keeps the response as it was. Any reply body becomes the response, whatever its status code, and the error is untouched. |
| Gradio.CheckControlsData | src/gradio/GradioClient.cpp:346-399 | The controls are fetched exactly when the data is an array whose first element is an object with an object "card" and an array "ctrls". When the card is an object and "ctrls" is not an array, the card is replaced and the "Couldn't load the controls array/list" error is set. Each earlier failure has its own message: data that is not an object, an object that is not an array, a first element that is not a dict, a card that is not a dict. |
| Gradio.PendingErrorStopsControls | src/gradio/GradioClient.cpp:317-327 | An error already pending when `getControls` is called makes it fail right after the submission, whatever the result request would return. The message is the one the submission step leaves: its own on a rejection, the pending one otherwise. |
| Gradio.RejectedSubmissionStopsControls | src/gradio/GradioClient.cpp:321-327 | A rejected submission ends `getControls` with the submission's error, whatever the result request would return. |
| Gradio.ControlsReachShapeChecks | src/gradio/GradioClient.cpp:329-348 | With no pending error, an accepted submission and a reply that holds "data: ", the outcome is the shape check of the trimmed data line. |
| Gradio.MissingDataLine | src/gradio/GradioClient.cpp:339-344 | A reply with no "data: " line fails with the missing-key message. |
| Gradio.GradioClient.SetSpaceInfo | src/gradio/GradioClient.cpp:148-151 | The client's space info becomes the parse of the address from its previous value. |
| Gradio.GradioClient.GetControls | src/gradio/GradioClient.cpp:317-400 | Writes the out-parameters as `Controls` decides. On failure only the error changes. When only the control list is missing, the card dictionary holds a copy of the card and the list is unchanged. On success the card is copied, the list replaced and the error untouched. |
| Gradio.CheckEntry | src/gradio/GradioClient.cpp:375-399 | The checks on the first element of the data. The controls are fetched exactly when its "card" is an object and its "ctrls" an array. A card that is not an object fails with "Couldn't load the modelCard dict". An object card with a "ctrls" that is not an array gives that card and the "Couldn't load the controls array/list" error. |
| Gradio.GradioClient.ApplyControlsData | src/gradio/GradioClient.cpp:350-399 | Runs the shape checks and writes the out-parameters as `CheckControlsData` decides. |
| Gradio.GradioClient.ApplyEntry | src/gradio/GradioClient.cpp:375-399 | Writes the out-parameters as `CheckEntry` decides: the card dictionary is cleared and refilled before "ctrls" is looked at. |
| Gradio.GradioClient.CopyCard | src/gradio/GradioClient.cpp:384-391 | Afterwards the card dictionary holds exactly what setting the card's properties, in order, on an empty dictionary gives. |
| Controls.UuidSource.Next | src/WebModel.h:247 | A fresh id carries a serial that no earlier id had. |
| Controls.FindById | src/WebModel.h:405-411 | The position of the first entry filed under the id, or the length when there is none. |
| Controls.Added | src/WebModel.h:229-278 | One pass of the parse loop adds one control for a recognised type and nothing otherwise. The control is filed under its own id, has the record's kind and label, and has a fresh id exactly when its kind takes one. |
| Controls.ReadRecordFields | src/WebModel.h:224-271 | A record's kind is `audio_in`, `midi_in`, `slider`, `text` or `number_box` exactly when its "ctrl_type" text is that name. Its label and value texts are those of the "label", "minimum", "maximum", "step", "value", "min" and "max" fields. |
| Controls.MakeCtrlFields | Source/DeepLearning/WebModel.h:177-213 | The control built from a record has the record's kind, label and the given id. A slider's minimum, maximum, step and value are the numbers read from the record's fields of those names. A text box keeps the "value" text. A number box reads "min", "max" and "value". Audio and MIDI inputs start empty. |
| Controls.AddedFromJson | src/WebModel.h:224-278 | For a JSON record of a recognised type, in either version, one control is added under its own id. It carries the record's "label", and each variant's fields are read from the record's fields of the same names. |
| Controls.ParsedIds | src/WebModel.h:229-275 | In the list `load` builds, every control is filed under its own id. Exactly the kinds that take a fresh id have one, drawn from the ids handed out during the load. |
| Controls.ParseAppend | src/WebModel.h:217-283 | The list for one record more is the list so far plus what that record adds. |
| Controls.ParsedShapes | src/WebModel.h:217-283 | `load` keeps exactly the recognised records, in their order, with their labels. Unknown types, toggles and combo boxes are skipped. |
| Controls.FreshIdsIncrease | src/WebModel.h:245-265 | The fresh ids in the list increase along it, so no two controls share one. |
| Controls.FindFreshId | src/WebModel.h:405-411 | Every control with a fresh id is found by it, at its own position. |
| Controls.NullIdsCollide | src/WebModel.h:405-411 | Two controls that keep the shared default id are both found at the first one. |
| Controls.FirstNonObject | src/WebModel.h:217-221 | The index of the first record that is not an object, where `load` throws. |
| Controls.ObjectsBefore | src/WebModel.h:217-221 | Every record before that index is an object. |
| Controls.FirstUnsupported | src/WebModel.h:440-470 | Where `saveCtrls` stops: every earlier control is of a variant it handles, and the one there is not. |
| Controls.Serialize | src/WebModel.h:435-471 | The values are written exactly when every control is of a handled variant. They are then one per control, in list order, with the input path for audio and MIDI inputs. |
| Controls.SaveValues | src/WebModel.h:440-470 | The loop of `saveCtrls` succeeds exactly when `Serialize` does and collects its values. The list afterwards has the inputs up to the stopping point overwritten with the input path. |
| Controls.SerializeStops | src/WebModel.h:466-470 | The values are written exactly when the loop runs to the end of the list. |
| Controls.SavedValuesAreHeld | src/WebModel.h:444-465 | After a save that writes its values, each value written is the value its control now holds. |
| Controls.OverwriteKeepsShape | src/WebModel.h:459-465 | Saving changes only input values: ids, variants and labels stay. |
| Controls.OverwrittenSettles | src/WebModel.h:459-465 | Overwriting an input twice is overwriting it once, and it never changes the value the control emits. |
| Controls.SaveIsIdempotent | src/WebModel.h:435-483 | Saving a second time with the same input path writes the same values and leaves the list as it is. |
| Controls.DialectsSaveAlike | Source/DeepLearning/WebModel.h:340-385 | When the list has no MIDI input, both versions of `saveCtrls` write the same values and leave the same list. |
| Controls.LegacySkipsMidiIn | Source/DeepLearning/WebModel.h:165-216 | The older `load` keeps the same records as the current one, except those of type `midi_in`. |
| LoadSpec.ReadSpec | src/WebModel.h:153-210 | The checks `load` makes, in order. It goes on exactly when the helper exited with 0 and the spec is an object whose "card" is an object with a "tags" array and whose "ctrls" is an array. A failing helper is reported with its log. The card is written only before a tags or ctrls failure. |
| LoadSpec.CardOf | src/WebModel.h:184-200 | The card's tags are the texts of the JSON tags, in order. The older version leaves the MIDI fields at their defaults. |
| WebModel.WebWave2Wave.constructor | src/WebModel.h:77-101 | No controls, and the status file holds "Status.INITIALIZED". |
| WebModel.WebWave2Wave.Load | src/WebModel.h:113-290 | Clears the controls and the loaded flag. A missing url throws and changes nothing else. Each failed check throws its own message with the model not loaded and the status untouched. Otherwise the card is built and the controls are those of the records before the first non-object, with fresh ids drawn in order. A non-object record throws; else the model is loaded and the status is "Status.LOADED". |
| WebModel.WebWave2Wave.ReadControls | src/WebModel.h:135-290 | The part of `load` after the url is known, with the same outcomes. |
| WebModel.WebWave2Wave.AddTags | src/WebModel.h:194-200 | The tags loop appends the text of every tag to the card, in order. |
| WebModel.WebWave2Wave.AddCtrls | src/WebModel.h:212-289 | The control loop builds the list of `Controls.ParseCtrls` for the records before the first non-object. It throws at that record, or else loads the model and sets the status. |
| WebModel.WebWave2Wave.AddCtrl | src/WebModel.h:224-278 | One record adds what `Controls.Added` says and takes a fresh id exactly when its kind needs one. |
| WebModel.WebWave2Wave.SaveCtrls | src/WebModel.h:435-483 | The list is overwritten as `Controls.SaveValues` says. The values `Controls.Serialize` gives are written when the file write succeeds. It returns true exactly when they were written. |
| WebModel.WebWave2Wave.Process | src/WebModel.h:296-381 | Clears the cancel flag first. If not loaded it throws "Model not loaded". If the controls cannot be saved it throws. Otherwise the status is what the helper left. A failed run throws with the log and keeps the cancel flag as the run left it. A successful run clears the flag again. |
| WebModel.WebWave2Wave.Cancel | src/WebModel.h:385-388 | The cancel flag is set afterwards, so a second call changes nothing. |
| WebModel.WebWave2Wave.GetStatus | src/WebModel.h:390-399 | The status file's text, or "Status.INACTIVE" when there is none. |
| WebModel.WebWave2Wave.FindCtrlByUuid | src/WebModel.h:405-411 | The first control filed under the id, or the end. |
| WebModel.ModelStatusTimer.TimerCallback | src/WebModel.h:506-515 | Afterwards the last status seen is the model's status. A change message goes out exactly when it differs from the one seen before. |
| DeepLearning.WebWave2Wave.constructor | Source/DeepLearning/WebModel.h:65-66 | No controls. The loaded flag holds whatever value it is given, standing for uninitialised memory. |
| DeepLearning.WebWave2Wave.Load | Source/DeepLearning/WebModel.h:71-228 | Returns true exactly when the model ends up loaded. A missing url or a failed check returns false. Records before the first non-object are kept, with fresh ids for sliders. It succeeds exactly when every record is an object, and then broadcasts one change message. |
| DeepLearning.WebWave2Wave.ReadControls | Source/DeepLearning/WebModel.h:84-228 | The part of the older `load` after the url is known, with the same outcomes. |
| DeepLearning.WebWave2Wave.AddTags | Source/DeepLearning/WebModel.h:139-146 | The tags loop appends the text of every tag to the card, in order. |
| DeepLearning.WebWave2Wave.AddCtrls | Source/DeepLearning/WebModel.h:160-227 | The older control loop builds the list of `Controls.ParseCtrls` for the legacy dialect. It returns false at the first non-object record, or else broadcasts a change and loads the model. |
| DeepLearning.WebWave2Wave.AddCtrl | Source/DeepLearning/WebModel.h:172-216 | One record adds what `Controls.Added` says for the older version: only a slider takes a fresh id. |
| DeepLearning.WebWave2Wave.SaveCtrls | Source/DeepLearning/WebModel.h:340-385 | As in the current version, except that a MIDI input makes the save fail. |
| DeepLearning.WebWave2Wave.Process | Source/DeepLearning/WebModel.h:236-308 | Does nothing when not loaded or when the input buffer cannot be saved. Otherwise it saves the controls and reads the output back exactly when they were written, whatever the helper's exit code. |
| DeepLearning.WebWave2Wave.FindCtrlByUuid | Source/DeepLearning/WebModel.h:311-317 | The first control filed under the id, or the end. |
| DeepLearning.OnlySlidersFresh | Source/DeepLearning/WebModel.h:177-213 | In the older `load` exactly the sliders have a fresh id. Every other control keeps the shared default id. |

## Left out

- Network transport (`juce::URL::createInputStream`) and `downloadFileFromURL`: network I/O. A reply is a parameter.
- `juce::JSON::parse`, `JSON::toString` and `loadJsonFromFile`: foreign library code. Their results are parameters.
- `std::system` calls to the gradiojuce helper, platform script paths, temp-file names, copying and moving files, log files, `LogAndDBG` and `DBG`: process and file I/O. The helper's run is a parameter.
- Writing the input buffer to a file and reading the output back in the older `process`: audio file I/O. Whether the buffer was saved is a parameter.
- Moving the output file over the input in the current `process`: file I/O.
- `getFloatValue`: floating point. Numbers keep the text they are read from.
- The randomness of `juce::Uuid()`: it is a counter whose ids never repeat.
- `var::toString` of an object prints "Object 0x" and then the object's address. The model stops at "Object 0x": the address is not modelled. An array prints the fixed "[Array]", as modelled.
- The destructor's deletion of the flag files, timer scheduling and the delivery of change messages: the timer is modelled one callback at a time.
- The `catch (const char*)` branches of both `load`s: nothing in the modelled code throws a C string, and the current one builds its message with pointer arithmetic on the text.
- `std::any_cast` of the url parameter: the params are a map from names to strings.
- The accessors `ready`, `controls`, `card`, `getSpaceInfo`, `space_url` and `getCancelFlagFile`: they only return a field.
- `Model.h`, `Wave2Wave.h` and the header declaring `SpaceInfo` are not part of this model. The defaults of `ModelCard` and `SpaceInfo`, and the current class's initial `m_loaded`, are parameters or blank values.
- JuceString.IsWhitespace and JuceString.ToLower cover ASCII only. JUCE's `trim` and case-insensitive `matchesWildcard` use its Unicode character classes.
- Controls.ParseCtrls: its own contract states only the length; what it builds is stated by `Controls.ParsedIds`, `Controls.ParsedShapes`, `Controls.FreshIdsIncrease` and `Controls.ParseAppend`.
- DeepLearning.WebWave2Wave.Process: `process` is const but overwrites the audio inputs through shared pointers; the model lets it change the control list.
