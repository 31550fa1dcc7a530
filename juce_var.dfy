/**
 * juce::var as juce::JSON::parse produces it, and the accessors the client calls on it.
 * The JSON text itself is never parsed here: parsing is JUCE's, and the model takes its
 * result as given.
 */
module JuceVar {
  import opened Wrappers

  /** A property list of a juce::DynamicObject, in insertion order. */
  type Properties = seq<(string, Var)>

  datatype Var =
    | Void                          // also what JSON `null` parses to
    | Bool(b: bool)
    | Number(literal: string)       // a number, kept as the text it was written as
    | Str(text: string)
    | Array(items: seq<Var>)
    | Object(properties: Properties)

  /** var::isVoid. */
  predicate IsVoid(v: Var) {
    v.Void?
  }

  /** var::isObject: JUCE's array type derives from its object type, so an array answers true too. */
  predicate IsObject(v: Var) {
    v.Object? || v.Array?
  }

  /** var::isArray. */
  predicate IsArray(v: Var) {
    v.Array?
  }

  /** var::getDynamicObject: the properties of an object, none (a null pointer) for anything else. */
  function GetDynamicObject(v: Var): Option<Properties> {
    if v.Object? then Some(v.properties) else None
  }

  /** var::getArray: the elements of an array, none (a null pointer) for anything else. */
  function GetArray(v: Var): Option<seq<Var>> {
    if v.Array? then Some(v.items) else None
  }

  /** Array<var>::getFirst: the first element, or a void var when the array is empty. */
  function GetFirst(items: seq<Var>): Var {
    if items == [] then Void else items[0]
  }

  /** The value of the first property called `name`, if there is one. */
  function Lookup(properties: Properties, name: string): Option<Var> {
    if properties == [] then None
    else if properties[0].0 == name then Some(properties[0].1)
    else Lookup(properties[1..], name)
  }

  /** Lookup finds a property exactly when one has the name, and then it is the first such one. */
  lemma {:induction false} LookupFinds(properties: Properties, name: string)
    ensures Lookup(properties, name).Some? <==> exists i :: 0 <= i < |properties| && properties[i].0 == name
    ensures Lookup(properties, name).Some? ==>
      exists i :: 0 <= i < |properties| && properties[i] == (name, Lookup(properties, name).value)
                  && forall j :: 0 <= j < i ==> properties[j].0 != name
    decreases |properties|
  {
    if properties != [] && properties[0].0 != name {
      var rest := properties[1..];
      LookupFinds(rest, name);
      assert forall i :: 1 <= i < |properties| ==> properties[i] == rest[i - 1];
      if Lookup(properties, name).Some? {
        var i :| 0 <= i < |rest| && rest[i] == (name, Lookup(rest, name).value)
                 && forall j :: 0 <= j < i ==> rest[j].0 != name;
        assert properties[i + 1] == (name, Lookup(properties, name).value);
        assert forall j :: 0 <= j < i + 1 ==> properties[j].0 != name by {
          forall j | 0 <= j < i + 1 ensures properties[j].0 != name {
            if j > 0 { assert properties[j] == rest[j - 1]; }
          }
        }
      } else {
        assert forall i :: 0 <= i < |properties| ==> properties[i].0 != name by {
          forall i | 0 <= i < |properties| ensures properties[i].0 != name {
            if i > 0 { assert properties[i] == rest[i - 1]; }
          }
        }
      }
    }
  }

  /** DynamicObject::hasProperty. */
  predicate HasProperty(properties: Properties, name: string) {
    Lookup(properties, name).Some?
  }

  /** DynamicObject::getProperty: the value, or a void var when the property is missing. */
  function GetProperty(properties: Properties, name: string): Var {
    Lookup(properties, name).GetOr(Void)
  }

  /** var::operator[] with a property name: the property of an object, void for any other var. */
  function Member(v: Var, name: string): Var {
    if v.Object? then GetProperty(v.properties, name) else Void
  }

  /** The text JUCE prints for an object; the address that follows it is not modelled. */
  const ObjectText := "Object 0x"

  /** The fixed text JUCE prints for an array. */
  const ArrayText := "[Array]"

  /** var::toString. */
  function ToString(v: Var): string {
    match v
    case Void => ""
    case Bool(b) => if b then "1" else "0"
    case Number(literal) => literal
    case Str(text) => text
    case Array(_) => ArrayText
    case Object(_) => ObjectText
  }

  /** No name appears twice: the shape every DynamicObject has. */
  predicate UniqueNames(properties: Properties) {
    forall i, j :: 0 <= i < j < |properties| ==> properties[i].0 != properties[j].0
  }

  /** The names of a property list, in order. */
  function Names(properties: Properties): seq<string> {
    seq(|properties|, i requires 0 <= i < |properties| => properties[i].0)
  }

  /**
   * NamedValueSet::set, behind DynamicObject::setProperty: a property already present
   * gets the new value in place, a new one is appended.
   */
  function NamedSet(properties: Properties, name: string, value: Var): (r: Properties)
    ensures Names(r) == if name in Names(properties) then Names(properties) else Names(properties) + [name]
    ensures name !in Names(properties) ==> r == properties + [(name, value)]
  {
    if properties == [] then [(name, value)]
    else if properties[0].0 == name then
      var r := [(name, value)] + properties[1..];
      assert Names(properties)[0] == name;
      assert Names(r) == Names(properties);
      r
    else
      var rest := NamedSet(properties[1..], name, value);
      assert Names(properties) == [properties[0].0] + Names(properties[1..]);
      assert Names([properties[0]] + rest) == [properties[0].0] + Names(rest);
      [properties[0]] + rest
  }

  /** The properties `source` leaves behind when set one by one, in order, on an empty object. */
  function Copied(source: Properties): Properties
    decreases |source|
  {
    if source == [] then []
    else NamedSet(Copied(source[..|source| - 1]), source[|source| - 1].0, source[|source| - 1].1)
  }

  /** Copying the properties of an object, whose names are distinct, reproduces them exactly. */
  lemma {:induction false} CopiedUnique(source: Properties)
    requires UniqueNames(source)
    ensures Copied(source) == source
    decreases |source|
  {
    if source != [] {
      var n := |source| - 1;
      var front := source[..n];
      assert UniqueNames(front);
      CopiedUnique(front);
      assert source[n].0 !in Names(front) by {
        forall i | 0 <= i < |front| ensures Names(front)[i] != source[n].0 {
          assert front[i] == source[i];
        }
      }
      assert front + [(source[n].0, source[n].1)] == source;
    }
  }

  /** A juce::DynamicObject: a property list that is changed in place. */
  class DynamicObject {
    var properties: Properties

    constructor(initial: Properties)
      ensures properties == initial
    {
      properties := initial;
    }

    /** DynamicObject::clear. */
    method Clear()
      modifies this
      ensures properties == []
    {
      properties := [];
    }

    /** DynamicObject::setProperty. */
    method SetProperty(name: string, value: Var)
      modifies this
      ensures properties == NamedSet(old(properties), name, value)
    {
      properties := NamedSet(properties, name, value);
    }
  }
}
