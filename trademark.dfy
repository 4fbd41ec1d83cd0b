/** The Trademark record: seven typed public properties, filled by binding the
    keys of an associative array to the properties of the same name. */
module Models {
  import opened Text

  /** The properties of a Trademark object in declaration order; None is a typed
      property that was never initialised. */
  datatype Fields = Fields(
    id: Option<string>,
    number: Option<string>,
    name: Option<string>,
    logoUrl: Option<string>,
    classLabel: Option<string>,   // the property `class`
    status: Option<string>,
    detailsPageUrl: Option<string>)

  /** A freshly constructed Trademark: no property initialised. */
  const UNSET := Fields(None, None, None, None, None, None, None)

  /** The declared property names, in declaration order. */
  const PROPERTY_NAMES: seq<string> := ["id", "number", "name", "logoUrl", "class", "status", "detailsPageUrl"]

  /** What getShortClassName() answers: the class name without its namespace. */
  const SHORT_CLASS_NAME := "Trademark"

  /** property_exists($trademark, key). */
  predicate IsProperty(key: string) {
    key in PROPERTY_NAMES
  }

  /** The property named key (None for an unset property or an unknown name). */
  function Property(f: Fields, key: string): Option<string> {
    if key == "id" then f.id
    else if key == "number" then f.number
    else if key == "name" then f.name
    else if key == "logoUrl" then f.logoUrl
    else if key == "class" then f.classLabel
    else if key == "status" then f.status
    else if key == "detailsPageUrl" then f.detailsPageUrl
    else None
  }

  /** assignValueIfPropertyExists: the property named key takes value; every
      other property keeps its value; an unknown key changes nothing. */
  function Assign(f: Fields, key: string, value: string): (r: Fields)
    ensures IsProperty(key) ==> Property(r, key) == Some(value)
    ensures forall k :: k != key ==> Property(r, k) == Property(f, k)
    ensures !IsProperty(key) ==> r == f
  {
    if key == "id" then f.(id := Some(value))
    else if key == "number" then f.(number := Some(value))
    else if key == "name" then f.(name := Some(value))
    else if key == "logoUrl" then f.(logoUrl := Some(value))
    else if key == "class" then f.(classLabel := Some(value))
    else if key == "status" then f.(status := Some(value))
    else if key == "detailsPageUrl" then f.(detailsPageUrl := Some(value))
    else f
  }

  /** initializeProperties: each entry of the array in turn. */
  function AssignAll(f: Fields, data: seq<(string, string)>): Fields
    decreases |data|
  {
    if data == [] then f else AssignAll(Assign(f, data[0].0, data[0].1), data[1..])
  }

  /** The value of the last entry with the given key. */
  function LastValue(data: seq<(string, string)>, key: string): Option<string> {
    if data == [] then None
    else match LastValue(data[1..], key)
      case Some(v) => Some(v)
      case None => if data[0].0 == key then Some(data[0].1) else None
  }

  /** Two records agree when every declared property agrees. */
  lemma FieldsExtensionality(a: Fields, b: Fields)
    requires forall k :: IsProperty(k) ==> Property(a, k) == Property(b, k)
    ensures a == b
  {
    assert IsProperty("id") && IsProperty("number") && IsProperty("name") && IsProperty("logoUrl");
    assert IsProperty("class") && IsProperty("status") && IsProperty("detailsPageUrl");
  }

  /** After initializeProperties, a declared property holds the value of the last
      entry naming it, and keeps its old value when no entry names it. */
  lemma {:induction false} AssignAllProperty(f: Fields, data: seq<(string, string)>, key: string)
    requires IsProperty(key)
    ensures Property(AssignAll(f, data), key) == (if LastValue(data, key).Some? then LastValue(data, key) else Property(f, key))
    decreases |data|
  {
    if data != [] {
      AssignAllProperty(Assign(f, data[0].0, data[0].1), data[1..], key);
    }
  }

  /** Entries whose keys name no property are ignored altogether. */
  lemma {:induction false} AssignAllIgnoresUnknownKeys(f: Fields, data: seq<(string, string)>)
    requires forall i :: 0 <= i < |data| ==> !IsProperty(data[i].0)
    ensures AssignAll(f, data) == f
    decreases |data|
  {
    if data != [] {
      AssignAllIgnoresUnknownKeys(f, data[1..]);
    }
  }

  /** One entry of get_object_vars: present only when the property is initialised. */
  function Entry(key: string, value: Option<string>): seq<(string, string)> {
    if value.Some? then [(key, value.value)] else []
  }

  /** The entries get_object_vars lists for the given declared names, in their order. */
  function VarsOf(f: Fields, names: seq<string>): (r: seq<(string, string)>)
    ensures forall i :: 0 <= i < |r| ==> r[i].0 in names && Property(f, r[i].0) == Some(r[i].1)
  {
    if names == [] then [] else Entry(names[0], Property(f, names[0])) + VarsOf(f, names[1..])
  }

  /** get_object_vars / toArray: the initialised properties, in declaration order. */
  function ObjectVars(f: Fields): (r: seq<(string, string)>)
    ensures forall i :: 0 <= i < |r| ==> IsProperty(r[i].0) && Property(f, r[i].0) == Some(r[i].1)
  {
    VarsOf(f, PROPERTY_NAMES)
  }

  function Keys(entries: seq<(string, string)>): seq<string> {
    if entries == [] then [] else [entries[0].0] + Keys(entries[1..])
  }

  /** The names among `names` whose property is initialised, in the order of `names`. */
  function InitialisedNames(f: Fields, names: seq<string>): seq<string> {
    if names == [] then []
    else (if Property(f, names[0]).Some? then [names[0]] else []) + InitialisedNames(f, names[1..])
  }

  /** toArray lists exactly the initialised properties, each once, in declaration order. */
  lemma {:induction false} VarsOfKeys(f: Fields, names: seq<string>)
    ensures Keys(VarsOf(f, names)) == InitialisedNames(f, names)
  {
    if names != [] {
      VarsOfKeys(f, names[1..]);
      var e := Entry(names[0], Property(f, names[0]));
      KeysConcat(e, VarsOf(f, names[1..]));
      assert Keys(e) == if Property(f, names[0]).Some? then [names[0]] else [];
    }
  }

  /** The keys of two runs of entries, one after the other. */
  lemma {:induction false} KeysConcat(a: seq<(string, string)>, b: seq<(string, string)>)
    ensures Keys(a + b) == Keys(a) + Keys(b)
  {
    if a == [] {
      assert a + b == b;
    } else {
      KeysConcat(a[1..], b);
      assert (a + b)[1..] == a[1..] + b;
    }
  }

  /** The state of a Trademark object's properties, seen through a sequence of them. */
  function Views(ts: seq<Trademark>): (r: seq<Fields>)
    reads ts
    ensures |r| == |ts|
  {
    if ts == [] then [] else [ts[0].View()] + Views(ts[1..])
  }

  /** Position i of the views is the view of object i. */
  lemma {:induction false} ViewsAt(ts: seq<Trademark>, i: nat)
    requires i < |ts|
    ensures Views(ts)[i] == ts[i].View()
    decreases i
  {
    if i > 0 {
      ViewsAt(ts[1..], i - 1);
    }
  }

  /** Views of concatenated sequences are concatenated views. */
  lemma {:induction false} ViewsConcat(ts: seq<Trademark>, us: seq<Trademark>)
    ensures Views(ts + us) == Views(ts) + Views(us)
  {
    if ts != [] {
      ViewsConcat(ts[1..], us);
      assert (ts + us)[1..] == ts[1..] + us;
    } else {
      assert ts + us == us;
    }
  }

  lemma ViewsAppend(ts: seq<Trademark>, t: Trademark)
    ensures Views(ts + [t]) == Views(ts) + [t.View()]
  {
    ViewsConcat(ts, [t]);
  }

  class Trademark {
    var id: Option<string>
    var number: Option<string>
    var name: Option<string>
    var logoUrl: Option<string>
    var classLabel: Option<string>
    var status: Option<string>
    var detailsPageUrl: Option<string>

    constructor ()
      ensures View() == UNSET
    {
      id, number, name, logoUrl := None, None, None, None;
      classLabel, status, detailsPageUrl := None, None, None;
    }

    function View(): Fields
      reads this
    {
      Fields(id, number, name, logoUrl, classLabel, status, detailsPageUrl)
    }

    /** Sets the property named key when the class declares one. */
    method AssignValueIfPropertyExists(key: string, value: string)
      modifies this
      ensures View() == Assign(old(View()), key, value)
    {
      if key == "id" {
        id := Some(value);
      } else if key == "number" {
        number := Some(value);
      } else if key == "name" {
        name := Some(value);
      } else if key == "logoUrl" {
        logoUrl := Some(value);
      } else if key == "class" {
        classLabel := Some(value);
      } else if key == "status" {
        status := Some(value);
      } else if key == "detailsPageUrl" {
        detailsPageUrl := Some(value);
      }
    }

    /** Binds every entry of data to the property of the same name and returns
        the object itself. */
    method InitializeProperties(data: seq<(string, string)>) returns (self: Trademark)
      modifies this
      ensures self == this
      ensures View() == AssignAll(old(View()), data)
    {
      var i := 0;
      while i < |data|
        invariant 0 <= i <= |data|
        invariant AssignAll(View(), data[i..]) == AssignAll(old(View()), data)
      {
        assert data[i..][1..] == data[i + 1..];
        AssignValueIfPropertyExists(data[i].0, data[i].1);
        i := i + 1;
      }
      self := this;
    }

    /** toArray: get_object_vars($this). */
    function ToArray(): seq<(string, string)>
      reads this
    {
      ObjectVars(View())
    }

    /** toJson: the encoder applied to toArray. */
    function ToJson(jsonEncode: seq<(string, string)> -> string): string
      reads this
    {
      jsonEncode(ToArray())
    }

    /** getShortClassName: the same name whatever the object's state. */
    function GetShortClassName(): (r: string)
      ensures r == SHORT_CLASS_NAME
    {
      SHORT_CLASS_NAME
    }
  }
}
