/**
 Saving the store to `es_settings.cfg` and loading it back. The file is an XML
 document whose top-level elements are `<bool>`, `<int>`, `<float>` and
 `<string>`, each with a `name` and a `value` attribute. Here a document is
 the sequence of its top-level elements; how text becomes XML and back is not
 modelled, and turning attribute text into values is left to conversion
 functions supplied by the caller.
 */
module SettingsFile {
  import opened Values
  import opened KeyOrder
  import opened Settings

  // ---------------------------------------------------------------------------
  // Documents

  /** A top-level element: its tag and its two attributes, either of which may
      be missing from a hand-edited file. */
  datatype Element = Element(tag: string, name: Option<string>, value: Option<string>)

  type Document = seq<Element>

  /** What reading the file gives: it is not there, it is not well-formed XML,
      or it parsed into a document. */
  datatype FileState = Missing | Unparsable | Parsed(doc: Document)

  /** The XML library's conversions between values and attribute text. */
  datatype Conversions = Conversions(
    formatBool: bool -> string,
    parseBool: string -> bool,
    formatInt: int32 -> string,
    parseInt: string -> int32,
    formatFloat: Float32 -> string,
    parseFloat: string -> Float32)

  /** Conversions under which every value reads back as itself. */
  ghost predicate Exact(c: Conversions) {
    && (forall b: bool :: c.parseBool(c.formatBool(b)) == b)
    && (forall i: int32 :: c.parseInt(c.formatInt(i)) == i)
    && (forall f: Float32 :: c.parseFloat(c.formatFloat(f)) == f)
  }

  /** The element tag each kind is saved and loaded under. */
  function TagOf(k: Kind): string {
    match k
    case BoolKind => "bool"
    case IntKind => "int"
    case FloatKind => "float"
    case StringKind => "string"
  }

  /** The kind a tag stands for; other tags are ignored by loading. */
  function KindOfTag(tag: string): (r: Option<Kind>)
    ensures r.Some? ==> TagOf(r.value) == tag
    ensures forall k :: TagOf(k) == tag ==> r == Some(k)
  {
    if tag == "bool" then Some(BoolKind)
    else if tag == "int" then Some(IntKind)
    else if tag == "float" then Some(FloatKind)
    else if tag == "string" then Some(StringKind)
    else None
  }

  /** Position of a tag's group in a saved file: bool, int, float, string. */
  function Rank(tag: string): nat {
    match KindOfTag(tag)
    case Some(BoolKind) => 0
    case Some(IntKind) => 1
    case Some(FloatKind) => 2
    case Some(StringKind) => 3
    case None => 4
  }

  /** The text written for a value. Strings are written as they are. */
  function Format(c: Conversions, v: Value): string {
    match v
    case BoolValue(b) => c.formatBool(b)
    case IntValue(i) => c.formatInt(i)
    case FloatValue(f) => c.formatFloat(f)
    case StringValue(t) => t
  }

  /** The value read from a `value` attribute as kind `k`. A missing attribute
      reads as the kind's zero value, the XML library's default. */
  function Convert(c: Conversions, k: Kind, text: Option<string>): (v: Value)
    ensures v.KindOf() == k
    ensures text.None? ==> v == Zero(k)
  {
    match text
    case None => Zero(k)
    case Some(t) =>
      match k
      case BoolKind => BoolValue(c.parseBool(t))
      case IntKind => IntValue(c.parseInt(t))
      case FloatKind => FloatValue(c.parseFloat(t))
      case StringKind => StringValue(t)
  }

  /** Under exact conversions, the written text of a value reads back as that value. */
  lemma ConvertFormat(c: Conversions, v: Value)
    requires Exact(c)
    ensures Convert(c, v.KindOf(), Some(Format(c, v))) == v
  {
  }

  /** The name an element is loaded under; a missing attribute reads as "". */
  function NameOf(e: Element): string {
    e.name.GetOr("")
  }

  // ---------------------------------------------------------------------------
  // Saving

  /** The names that are never written by the bool, int and float loops. They
      are meant to come from the command line instead. */
  const DontSave: seq<string> := [
    "Debug", "DebugGrid", "DebugText", "ParseGamelistOnly", "ShowExit",
    "Windowed", "VSync", "HideConsole", "ConfigDirectory", "IgnoreGamelist"
  ]

  const DontSaveSet: set<string> := set n | n in DontSave

  /** Whether the entry for `name` in the map of kind `k` is written. The string
      loop has no exclusion check, so every string entry is. */
  predicate Saved(s: Store, k: Kind, name: string) {
    name in Names(s, k) && (k == StringKind || name !in DontSave)
  }

  /** The keys that survive the "don't save" check, in their original order. */
  function Kept(keys: seq<string>): (r: seq<string>)
    ensures forall n :: n in r <==> n in keys && n !in DontSave
    ensures Ascending(keys) ==> Ascending(r)
    decreases |keys|
  {
    if |keys| == 0 then []
    else
      var rest := Kept(keys[1..]);
      assert Ascending(keys) ==> Ascending(keys[1..]);
      if keys[0] in DontSave then rest
      else
        assert Ascending(keys) ==> forall x | x in rest :: Below(keys[0], x) && keys[0] != x by {
          if Ascending(keys) {
            forall x | x in rest ensures Below(keys[0], x) && keys[0] != x {
              var j :| 0 <= j < |keys[1..]| && keys[1..][j] == x;
              assert keys[j + 1] == x;
            }
          }
        }
        [keys[0]] + rest
  }

  /** One element per name of the map of kind `k`, tagged with the kind's tag
      and carrying the name and the entry's value as text. */
  function Emit(s: Store, c: Conversions, k: Kind, names: seq<string>): (r: Document)
    requires forall n | n in names :: n in Names(s, k)
    ensures |r| == |names|
    ensures forall i | 0 <= i < |r| :: (Lookup(s, k, names[i]).Some? &&
      r[i] == Element(TagOf(k), Some(names[i]), Some(Format(c, Lookup(s, k, names[i]).value))))
    decreases |names|
  {
    if |names| == 0 then []
    else
      assert names[0] in names;
      [Element(TagOf(k), Some(names[0]), Some(Format(c, Lookup(s, k, names[0]).value)))] + Emit(s, c, k, names[1..])
  }

  /** An element the save of `s` may contain: a known tag, a name that is
      saved under that kind, and that entry's value as text. */
  predicate Written(s: Store, c: Conversions, e: Element) {
    && KindOfTag(e.tag).Some?
    && e.name.Some?
    && Saved(s, KindOfTag(e.tag).value, e.name.value)
    && Lookup(s, KindOfTag(e.tag).value, e.name.value).Some?
    && e.value == Some(Format(c, Lookup(s, KindOfTag(e.tag).value, e.name.value).value))
  }

  /** Every element of `doc` is one the save of `s` may contain. */
  predicate AllWritten(s: Store, c: Conversions, doc: Document) {
    forall i | 0 <= i < |doc| :: Written(s, c, doc[i])
  }

  /** Every saved entry of kind `k` has an element in `doc`. */
  ghost predicate Complete(s: Store, doc: Document, k: Kind) {
    forall n | Saved(s, k, n) :: exists i | 0 <= i < |doc| :: doc[i].tag == TagOf(k) && doc[i].name == Some(n)
  }

  /** The groups of `doc` come in the order bool, int, float, string. */
  predicate Grouped(doc: Document) {
    forall i, j | 0 <= i < j < |doc| :: Rank(doc[i].tag) <= Rank(doc[j].tag)
  }

  /** Within each group, names are strictly ascending: no name twice. */
  predicate AscendingWithinGroups(doc: Document) {
    forall i, j | 0 <= i < j < |doc| && doc[i].tag == doc[j].tag ::
      doc[i].name.Some? && doc[j].name.Some? && Below(doc[i].name.value, doc[j].name.value) && doc[i].name != doc[j].name
  }

  predicate RanksBetween(doc: Document, lo: nat, hi: nat) {
    forall i | 0 <= i < |doc| :: lo <= Rank(doc[i].tag) <= hi
  }

  /** The elements one kind's loop writes form a group of that kind. */
  lemma {:induction false} GroupOfKind(s: Store, c: Conversions, k: Kind, g: Document, keys: seq<string>)
    requires |g| == |keys|
    requires Ascending(keys)
    requires forall n :: n in keys <==> Saved(s, k, n)
    requires forall n | n in keys :: Lookup(s, k, n).Some?
    requires forall i | 0 <= i < |g| :: g[i] == Element(TagOf(k), Some(keys[i]), Some(Format(c, Lookup(s, k, keys[i]).value)))
    ensures AllWritten(s, c, g)
    ensures Complete(s, g, k)
    ensures Grouped(g) && AscendingWithinGroups(g)
    ensures RanksBetween(g, Rank(TagOf(k)), Rank(TagOf(k)))
  {
    forall i | 0 <= i < |g| ensures Written(s, c, g[i]) {
      assert keys[i] in keys;
    }
    forall n | Saved(s, k, n) ensures exists i | 0 <= i < |g| :: g[i].tag == TagOf(k) && g[i].name == Some(n) {
      var i :| 0 <= i < |keys| && keys[i] == n;
      assert g[i].tag == TagOf(k) && g[i].name == Some(n);
    }
  }

  /** Appending a later group keeps every property of a saved document. */
  lemma {:induction false} AppendGroup(s: Store, c: Conversions, a: Document, b: Document, r: nat)
    requires AllWritten(s, c, a) && AllWritten(s, c, b)
    requires Grouped(a) && Grouped(b)
    requires AscendingWithinGroups(a) && AscendingWithinGroups(b)
    requires RanksBetween(a, 0, r) && RanksBetween(b, r + 1, r + 1)
    ensures AllWritten(s, c, a + b)
    ensures Grouped(a + b) && AscendingWithinGroups(a + b)
    ensures RanksBetween(a + b, 0, r + 1)
    ensures forall k | Complete(s, a, k) :: Complete(s, a + b, k)
    ensures forall k | Complete(s, b, k) :: Complete(s, a + b, k)
  {
    var d := a + b;
    forall i | 0 <= i < |d| ensures Written(s, c, d[i]) && 0 <= Rank(d[i].tag) <= r + 1 {
      if i < |a| { assert d[i] == a[i]; } else { assert d[i] == b[i - |a|]; }
    }
    forall i, j | 0 <= i < j < |d| ensures Rank(d[i].tag) <= Rank(d[j].tag) {
      if j < |a| {
        assert d[i] == a[i] && d[j] == a[j];
      } else if i < |a| {
        assert d[i] == a[i] && d[j] == b[j - |a|];
      } else {
        assert d[i] == b[i - |a|] && d[j] == b[j - |a|];
      }
    }
    forall i, j | 0 <= i < j < |d| && d[i].tag == d[j].tag
      ensures d[i].name.Some? && d[j].name.Some? && Below(d[i].name.value, d[j].name.value) && d[i].name != d[j].name
    {
      if j < |a| {
        assert d[i] == a[i] && d[j] == a[j];
      } else if i < |a| {
        assert false;
      } else {
        assert d[i] == b[i - |a|] && d[j] == b[j - |a|];
      }
    }
    forall k | Complete(s, a, k) ensures Complete(s, d, k) {
      forall n | Saved(s, k, n) ensures exists i | 0 <= i < |d| :: d[i].tag == TagOf(k) && d[i].name == Some(n) {
        var i :| 0 <= i < |a| && a[i].tag == TagOf(k) && a[i].name == Some(n);
        assert d[i] == a[i];
      }
    }
    forall k | Complete(s, b, k) ensures Complete(s, d, k) {
      forall n | Saved(s, k, n) ensures exists i | 0 <= i < |d| :: d[i].tag == TagOf(k) && d[i].name == Some(n) {
        var i :| 0 <= i < |b| && b[i].tag == TagOf(k) && b[i].name == Some(n);
        assert d[|a| + i] == b[i];
      }
    }
  }

  /** What `saveFile` writes for the map of kind `k`, in key order: the bool,
      int and float maps go through saveMap, which skips excluded names; the
      string map has a loop of its own, which has no exclusion check. */
  function Group(s: Store, c: Conversions, k: Kind): Document {
    var keys := SortedKeys(Names(s, k));
    if k == StringKind then Emit(s, c, k, keys) else Emit(s, c, k, Kept(keys))
  }

  /** Each kind's group holds exactly that kind's saved entries, in key order. */
  ghost predicate GroupShape(s: Store, c: Conversions, k: Kind, g: Document) {
    && AllWritten(s, c, g)
    && Complete(s, g, k)
    && Grouped(g) && AscendingWithinGroups(g)
    && RanksBetween(g, Rank(TagOf(k)), Rank(TagOf(k)))
  }

  lemma GroupHasShape(s: Store, c: Conversions, k: Kind)
    ensures GroupShape(s, c, k, Group(s, c, k))
  {
    var sorted := SortedKeys(Names(s, k));
    var keys := if k == StringKind then sorted else Kept(sorted);
    GroupOfKind(s, c, k, Group(s, c, k), keys);
  }

  /** Four groups of ranks 0 to 3, one after another, form a saved document. */
  lemma {:induction false} Assemble(s: Store, c: Conversions, g0: Document, g1: Document, g2: Document, g3: Document)
    requires GroupShape(s, c, BoolKind, g0)
    requires GroupShape(s, c, IntKind, g1)
    requires GroupShape(s, c, FloatKind, g2)
    requires GroupShape(s, c, StringKind, g3)
    ensures AllWritten(s, c, g0 + g1 + g2 + g3)
    ensures forall k :: Complete(s, g0 + g1 + g2 + g3, k)
    ensures Grouped(g0 + g1 + g2 + g3)
    ensures AscendingWithinGroups(g0 + g1 + g2 + g3)
  {
    var d1 := g0 + g1;
    var d2 := d1 + g2;
    AppendGroup(s, c, g0, g1, 0);
    AppendGroup(s, c, d1, g2, 1);
    AppendGroup(s, c, d2, g3, 2);
    assert Complete(s, d1, BoolKind) && Complete(s, d1, IntKind);
    assert Complete(s, d2, BoolKind) && Complete(s, d2, IntKind) && Complete(s, d2, FloatKind);
    forall k ensures Complete(s, d2 + g3, k) {
      if k != StringKind {
        assert Complete(s, d2, k);
      }
    }
  }

  /** `saveFile`: the bool, int, float and string groups, in that order. Each
      element is a saved entry with its value as text, every saved entry has
      an element, and within a group the names ascend, so none repeats. */
  function Save(s: Store, c: Conversions): (doc: Document)
    ensures forall i | 0 <= i < |doc| :: Written(s, c, doc[i])
    ensures forall k :: Complete(s, doc, k)
    ensures Grouped(doc)
    ensures AscendingWithinGroups(doc)
  {
    GroupHasShape(s, c, BoolKind);
    GroupHasShape(s, c, IntKind);
    GroupHasShape(s, c, FloatKind);
    GroupHasShape(s, c, StringKind);
    Assemble(s, c, Group(s, c, BoolKind), Group(s, c, IntKind), Group(s, c, FloatKind), Group(s, c, StringKind));
    Group(s, c, BoolKind) + Group(s, c, IntKind) + Group(s, c, FloatKind) + Group(s, c, StringKind)
  }

  // ---------------------------------------------------------------------------
  // Loading

  /** `e` is an element of kind tag `tag` that a load applies to `name`. */
  predicate Matches(e: Element, tag: string, name: string) {
    e.tag == tag && NameOf(e) == name
  }

  /** The last element of `doc` with tag `tag` that names `name`, if any. */
  function LastElement(doc: Document, tag: string, name: string): (r: Option<Element>)
    ensures r.None? <==> forall i | 0 <= i < |doc| :: !Matches(doc[i], tag, name)
    ensures r.Some? ==> exists i | 0 <= i < |doc| ::
      && doc[i] == r.value
      && Matches(doc[i], tag, name)
      && forall j | i < j < |doc| :: !Matches(doc[j], tag, name)
    decreases |doc|
  {
    if |doc| == 0 then None
    else
      var last := doc[|doc| - 1];
      var prefix := doc[..|doc| - 1];
      var r := if Matches(last, tag, name) then Some(last) else LastElement(prefix, tag, name);
      assert forall i | 0 <= i < |prefix| :: prefix[i] == doc[i];
      r
  }

  /** The value the document gives the entry `name` of kind `k`: that of the
      last element for it, if there is one. */
  function FileValue(c: Conversions, doc: Document, k: Kind, name: string): Option<Value> {
    match LastElement(doc, TagOf(k), name)
    case Some(e) => Some(Convert(c, k, e.value))
    case None => None
  }

  /** The set calls of one of loadFile's four loops: every element tagged as
      kind `k`, in document order. */
  function Walk(c: Conversions, doc: Document, k: Kind): seq<Assignment>
    decreases |doc|
  {
    if |doc| == 0 then []
    else
      var last := doc[|doc| - 1];
      var prefix := Walk(c, doc[..|doc| - 1], k);
      if last.tag == TagOf(k) then prefix + [Assignment(NameOf(last), Convert(c, k, last.value))]
      else prefix
  }

  /** A loop for kind `k` writes only kind `k`, and what it writes last for a
      name is what the document's last element for that name says. */
  lemma {:induction false} WalkLastWrite(c: Conversions, doc: Document, k: Kind, k': Kind, name: string)
    ensures LastWrite(Walk(c, doc, k), k', name) == if k' == k then FileValue(c, doc, k, name) else None
    decreases |doc|
  {
    if |doc| > 0 {
      var last := doc[|doc| - 1];
      var prefix := doc[..|doc| - 1];
      var xs := Walk(c, prefix, k);
      WalkLastWrite(c, prefix, k, k', name);
      if last.tag == TagOf(k) {
        var a := Assignment(NameOf(last), Convert(c, k, last.value));
        assert (xs + [a])[..|xs|] == xs;
      }
    }
  }

  /** loadFile's four loops in turn: bool, int, float, string. */
  function Replay(t: Store, c: Conversions, doc: Document): Store {
    var afterBools := Apply(t, Walk(c, doc, BoolKind));
    var afterInts := Apply(afterBools, Walk(c, doc, IntKind));
    var afterFloats := Apply(afterInts, Walk(c, doc, FloatKind));
    Apply(afterFloats, Walk(c, doc, StringKind))
  }

  /** Each entry ends up with the document's value for it, or keeps its own. */
  lemma ReplayLastWins(t: Store, c: Conversions, doc: Document)
    ensures forall k, name :: (Lookup(Replay(t, c, doc), k, name) ==
      if FileValue(c, doc, k, name).Some? then FileValue(c, doc, k, name) else Lookup(t, k, name))
  {
    var afterBools := Apply(t, Walk(c, doc, BoolKind));
    var afterInts := Apply(afterBools, Walk(c, doc, IntKind));
    var afterFloats := Apply(afterInts, Walk(c, doc, FloatKind));
    forall k, name
      ensures Lookup(Replay(t, c, doc), k, name) ==
        if FileValue(c, doc, k, name).Some? then FileValue(c, doc, k, name) else Lookup(t, k, name)
    {
      ApplyLastWins(t, Walk(c, doc, BoolKind), k, name);
      ApplyLastWins(afterBools, Walk(c, doc, IntKind), k, name);
      ApplyLastWins(afterInts, Walk(c, doc, FloatKind), k, name);
      ApplyLastWins(afterFloats, Walk(c, doc, StringKind), k, name);
      WalkLastWrite(c, doc, BoolKind, k, name);
      WalkLastWrite(c, doc, IntKind, k, name);
      WalkLastWrite(c, doc, FloatKind, k, name);
      WalkLastWrite(c, doc, StringKind, k, name);
    }
  }

  /** What loadFile returns, and the store afterwards. */
  datatype Loaded = Loaded(ok: bool, store: Store)

  /** `loadFile`. A missing or unparsable file gives false and leaves the store
      alone. Otherwise the result is true, whatever the document holds, and
      every entry the document names takes the value of its last element;
      excluded names are applied like any other. */
  function Load(t: Store, f: FileState, c: Conversions): (r: Loaded)
    ensures r.ok <==> f.Parsed?
    ensures !r.ok ==> r.store == t
    ensures f.Parsed? ==> forall k, name :: (Lookup(r.store, k, name) ==
      if FileValue(c, f.doc, k, name).Some? then FileValue(c, f.doc, k, name) else Lookup(t, k, name))
  {
    match f
    case Missing => Loaded(false, t)
    case Unparsable => Loaded(false, t)
    case Parsed(doc) =>
      ReplayLastWins(t, c, doc);
      Loaded(true, Replay(t, c, doc))
  }

  /** Loading the same file a second time changes nothing. */
  lemma LoadTwice(t: Store, f: FileState, c: Conversions)
    ensures Load(Load(t, f, c).store, f, c) == Load(t, f, c)
  {
    var once := Load(t, f, c);
    var twice := Load(once.store, f, c);
    if f.Parsed? {
      forall k, name ensures Lookup(twice.store, k, name) == Lookup(once.store, k, name) {
      }
      Extensionality(twice.store, once.store);
    }
  }

  // ---------------------------------------------------------------------------
  // Saving and loading together

  /** The value a document gives an entry, when its elements are exactly the
      saved entries of `s`: the stored value for a saved entry, none for any
      other. */
  lemma {:induction false} FileValueOfSaved(s: Store, c: Conversions, doc: Document, k: Kind, name: string)
    requires Exact(c)
    requires AllWritten(s, c, doc)
    requires Complete(s, doc, k)
    ensures FileValue(c, doc, k, name) == if Saved(s, k, name) then Lookup(s, k, name) else None
  {
    var tag := TagOf(k);
    assert KindOfTag(tag) == Some(k);
    if Saved(s, k, name) {
      var i :| 0 <= i < |doc| && doc[i].tag == tag && doc[i].name == Some(name);
      assert Matches(doc[i], tag, name);
      var e := LastElement(doc, tag, name).value;
      var j :| 0 <= j < |doc| && doc[j] == e && Matches(doc[j], tag, name);
      assert Written(s, c, doc[j]);
      ConvertFormat(c, Lookup(s, k, name).value);
    } else {
      forall i | 0 <= i < |doc| ensures !Matches(doc[i], tag, name) {
        assert Written(s, c, doc[i]);
      }
    }
  }

  /** The store `t` with the saved entries of `s` laid over it. */
  function Overlay(s: Store, t: Store): Store {
    Store(
      t.bools + (s.bools - DontSaveSet),
      t.ints + (s.ints - DontSaveSet),
      t.floats + (s.floats - DontSaveSet),
      t.strings + s.strings)
  }

  /** An entry of the overlay comes from `s` exactly when `s` saves it. */
  lemma OverlayLookup(s: Store, t: Store, k: Kind, name: string)
    ensures Lookup(Overlay(s, t), k, name) == if Saved(s, k, name) then Lookup(s, k, name) else Lookup(t, k, name)
  {
    assert name in DontSaveSet <==> name in DontSave;
  }

  /** Save then load: the loading store takes every saved entry and keeps
      its own values everywhere else, in particular for the excluded bool,
      int and float names. */
  lemma RoundTrip(s: Store, t: Store, c: Conversions)
    requires Exact(c)
    ensures Load(t, Parsed(Save(s, c)), c) == Loaded(true, Overlay(s, t))
  {
    var loaded := Load(t, Parsed(Save(s, c)), c).store;
    var expected := Overlay(s, t);
    forall k, name ensures Lookup(loaded, k, name) == Lookup(expected, k, name) {
      FileValueOfSaved(s, c, Save(s, c), k, name);
      OverlayLookup(s, t, k, name);
    }
    Extensionality(loaded, expected);
  }

  /** No bool, int or float element of a document written from `s` carries
      an excluded name. */
  lemma {:induction false} WrittenOmitsExcluded(s: Store, c: Conversions, doc: Document)
    requires AllWritten(s, c, doc)
    ensures forall i | 0 <= i < |doc| && doc[i].tag != "string" :: NameOf(doc[i]) !in DontSave
  {
    forall i | 0 <= i < |doc| && doc[i].tag != "string" ensures NameOf(doc[i]) !in DontSave {
      assert Written(s, c, doc[i]);
      assert KindOfTag(doc[i].tag) != Some(StringKind);
    }
  }

  /** The exclusion list holds for the bool, int and float elements of a
      saved file: no element of those kinds carries an excluded name. */
  lemma SaveOmitsExcluded(s: Store, c: Conversions)
    ensures forall i | 0 <= i < |Save(s, c)| && Save(s, c)[i].tag != "string" :: NameOf(Save(s, c)[i]) !in DontSave
  {
    WrittenOmitsExcluded(s, c, Save(s, c));
  }

  /** In a document holding exactly the saved entries of `s`, a saved entry
      appears as an element with its name and its value as text. */
  lemma {:induction false} SavedElement(s: Store, c: Conversions, doc: Document, k: Kind, name: string)
    requires AllWritten(s, c, doc)
    requires Complete(s, doc, k)
    requires Saved(s, k, name)
    ensures Lookup(s, k, name).Some?
    ensures exists i | 0 <= i < |doc| :: doc[i] == Element(TagOf(k), Some(name), Some(Format(c, Lookup(s, k, name).value)))
  {
    var i :| 0 <= i < |doc| && doc[i].tag == TagOf(k) && doc[i].name == Some(name);
    assert KindOfTag(TagOf(k)) == Some(k);
    assert Written(s, c, doc[i]);
  }

  /** The string loop does not consult the exclusion list, so the excluded
      `ConfigDirectory` string is written whenever it is set. */
  lemma SaveWritesConfigDirectory(s: Store, c: Conversions)
    requires "ConfigDirectory" in s.strings
    ensures exists i | 0 <= i < |Save(s, c)| ::
      Save(s, c)[i] == Element("string", Some("ConfigDirectory"), Some(s.strings["ConfigDirectory"]))
  {
    var doc := Save(s, c);
    var name := "ConfigDirectory";
    assert Saved(s, StringKind, name);
    SavedElement(s, c, doc, StringKind, name);
    var i :| 0 <= i < |doc| && doc[i] == Element(TagOf(StringKind), Some(name), Some(Format(c, Lookup(s, StringKind, name).value)));
    assert doc[i] == Element("string", Some(name), Some(s.strings[name]));
  }

  /** A hand-edited file is applied as written: an excluded name is set like
      any other, and a value the conversion cannot read still loads (as
      whatever the conversion makes of it) without failing the load. */
  lemma LoadHandEdited(t: Store, c: Conversions, debug: string)
    ensures var r := Load(t, Parsed([
        Element("bool", Some("Debug"), Some(debug)),
        Element("int", Some("DisplayNumber"), Some("notanumber"))]), c);
      && r.ok
      && Lookup(r.store, BoolKind, "Debug") == Some(BoolValue(c.parseBool(debug)))
      && Lookup(r.store, IntKind, "DisplayNumber") == Some(IntValue(c.parseInt("notanumber")))
  {
    var doc := [
      Element("bool", Some("Debug"), Some(debug)),
      Element("int", Some("DisplayNumber"), Some("notanumber"))];
    assert LastElement(doc, "bool", "Debug") == Some(doc[0]);
    assert LastElement(doc, "int", "DisplayNumber") == Some(doc[1]);
  }

  /** Start from the defaults, change two settings and the command-line-only
      `Debug`, save, and load into a fresh store: the two changes come back,
      `Debug` does not. A missing file leaves a fresh store at its defaults. */
  lemma SaveLoadScenario(p: Platform, c: Conversions)
    requires Exact(c)
    ensures var s := Set(Set(Set(NewSettings(p),
        "DisplayNumber", IntValue(2)),
        "ThemeSet", StringValue("carbon")),
        "Debug", BoolValue(true));
      var r := Load(NewSettings(p), Parsed(Save(s, c)), c);
      && r.ok
      && Get(r.store, IntKind, "DisplayNumber").value == IntValue(2)
      && Get(r.store, StringKind, "ThemeSet").value == StringValue("carbon")
      && Get(r.store, BoolKind, "Debug").value == BoolValue(false)
    ensures Load(NewSettings(p), Missing, c) == Loaded(false, NewSettings(p))
  {
    var t := NewSettings(p);
    var s := Set(Set(Set(t,
        "DisplayNumber", IntValue(2)),
        "ThemeSet", StringValue("carbon")),
        "Debug", BoolValue(true));
    ScenarioChanges(p);
    RoundTrip(s, t, c);
    ScenarioOverlay(s, t);
  }

  /** The scenario's store before saving: the two changes are in place, and
      a fresh store has `Debug` off. */
  lemma ScenarioChanges(p: Platform)
    ensures var s := Set(Set(Set(NewSettings(p),
        "DisplayNumber", IntValue(2)),
        "ThemeSet", StringValue("carbon")),
        "Debug", BoolValue(true));
      && Lookup(s, IntKind, "DisplayNumber") == Some(IntValue(2))
      && Lookup(s, StringKind, "ThemeSet") == Some(StringValue("carbon"))
    ensures Lookup(NewSettings(p), BoolKind, "Debug") == Some(BoolValue(false))
  {
  }

  /** The scenario's load, entry by entry: the two saved changes are laid over
      the loading store, the excluded `Debug` is not. */
  lemma ScenarioOverlay(s: Store, t: Store)
    requires Lookup(s, IntKind, "DisplayNumber") == Some(IntValue(2))
    requires Lookup(s, StringKind, "ThemeSet") == Some(StringValue("carbon"))
    requires Lookup(t, BoolKind, "Debug") == Some(BoolValue(false))
    ensures Get(Overlay(s, t), IntKind, "DisplayNumber").value == IntValue(2)
    ensures Get(Overlay(s, t), StringKind, "ThemeSet").value == StringValue("carbon")
    ensures Get(Overlay(s, t), BoolKind, "Debug").value == BoolValue(false)
  {
    OverlayLookup(s, t, IntKind, "DisplayNumber");
    OverlayLookup(s, t, StringKind, "ThemeSet");
    OverlayLookup(s, t, BoolKind, "Debug");
    assert "Debug" in DontSave;
    assert "DisplayNumber" !in DontSave;
  }
}
