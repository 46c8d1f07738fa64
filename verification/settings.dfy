/**
 The process-wide settings store: four independent maps from setting name to
 value, one per kind, with typed accessors, a fixed set of defaults and a
 lazily created single instance.
 */
module Settings {
  import opened Values

  /** The four maps. The same name may live in several of them at once; the
      entries are unrelated. */
  datatype Store = Store(
    bools: map<string, bool>,
    ints: map<string, int32>,
    floats: map<string, Float32>,
    strings: map<string, string>)

  const Empty: Store := Store(map[], map[], map[], map[])

  /** The names present in the map of kind `k`. */
  function Names(s: Store, k: Kind): set<string> {
    match k
    case BoolKind => s.bools.Keys
    case IntKind => s.ints.Keys
    case FloatKind => s.floats.Keys
    case StringKind => s.strings.Keys
  }

  /** The entry for `name` in the map of kind `k`, if there is one. */
  function Lookup(s: Store, k: Kind, name: string): (r: Option<Value>)
    ensures r.Some? <==> name in Names(s, k)
    ensures r.Some? ==> r.value.KindOf() == k
  {
    match k
    case BoolKind => if name in s.bools then Some(BoolValue(s.bools[name])) else None
    case IntKind => if name in s.ints then Some(IntValue(s.ints[name])) else None
    case FloatKind => if name in s.floats then Some(FloatValue(s.floats[name])) else None
    case StringKind => if name in s.strings then Some(StringValue(s.strings[name])) else None
  }

  /** Two stores that agree on every lookup are the same store. */
  lemma {:induction false} Extensionality(a: Store, b: Store)
    requires forall k, name :: Lookup(a, k, name) == Lookup(b, k, name)
    ensures a == b
  {
    forall name ensures name in a.bools <==> name in b.bools {
      assert Lookup(a, BoolKind, name) == Lookup(b, BoolKind, name);
    }
    forall name | name in a.bools ensures a.bools[name] == b.bools[name] {
      assert Lookup(a, BoolKind, name) == Lookup(b, BoolKind, name);
    }
    forall name ensures name in a.ints <==> name in b.ints {
      assert Lookup(a, IntKind, name) == Lookup(b, IntKind, name);
    }
    forall name | name in a.ints ensures a.ints[name] == b.ints[name] {
      assert Lookup(a, IntKind, name) == Lookup(b, IntKind, name);
    }
    forall name ensures name in a.floats <==> name in b.floats {
      assert Lookup(a, FloatKind, name) == Lookup(b, FloatKind, name);
    }
    forall name | name in a.floats ensures a.floats[name] == b.floats[name] {
      assert Lookup(a, FloatKind, name) == Lookup(b, FloatKind, name);
    }
    forall name ensures name in a.strings <==> name in b.strings {
      assert Lookup(a, StringKind, name) == Lookup(b, StringKind, name);
    }
    forall name | name in a.strings ensures a.strings[name] == b.strings[name] {
      assert Lookup(a, StringKind, name) == Lookup(b, StringKind, name);
    }
  }

  // ---------------------------------------------------------------------------
  // Accessors: setBool/setInt/setFloat/setString and getBool/getInt/getFloat/
  // getString are one macro instantiated per kind; here they are one function
  // each, the kind being carried by the value (set) or passed in (get).

  /** `set<Kind>(name, value)`: insert or overwrite in the map of the value's kind. */
  function Set(s: Store, name: string, v: Value): (r: Store)
    ensures Lookup(r, v.KindOf(), name) == Some(v)
    ensures forall k, n | k != v.KindOf() || n != name :: Lookup(r, k, n) == Lookup(s, k, n)
  {
    match v
    case BoolValue(b) => s.(bools := s.bools[name := b])
    case IntValue(i) => s.(ints := s.ints[name := i])
    case FloatValue(f) => s.(floats := s.floats[name := f])
    case StringValue(t) => s.(strings := s.strings[name := t])
  }

  /** What a typed get returns: the value, the store afterwards, and whether
      the "tried to use unset setting" diagnostic was emitted. */
  datatype Got = Got(value: Value, store: Store, unset: bool)

  /** `get<Kind>(name)`. The lookup goes through `operator[]`, so an absent
      name is inserted with the kind's zero value as a side effect. */
  function Get(s: Store, k: Kind, name: string): (r: Got)
    ensures r.value.KindOf() == k
    ensures r.unset <==> Lookup(s, k, name).None?
    ensures r.value == Lookup(s, k, name).GetOr(Zero(k))
    ensures Lookup(r.store, k, name) == Some(r.value)
    ensures forall k', n | k' != k || n != name :: Lookup(r.store, k', n) == Lookup(s, k', n)
  {
    match Lookup(s, k, name)
    case Some(v) => Got(v, s, false)
    case None => Got(Zero(k), Set(s, name, Zero(k)), true)
  }

  /** A get right after a set of the same kind and name returns the value set,
      without the diagnostic and without changing the store. */
  lemma GetAfterSet(s: Store, name: string, v: Value)
    ensures Get(Set(s, name, v), v.KindOf(), name) == Got(v, Set(s, name, v), false)
  {
  }

  /** After one get, the name is present: a second get returns the same value,
      stays silent and changes nothing. */
  lemma GetTwice(s: Store, k: Kind, name: string)
    ensures Get(Get(s, k, name).store, k, name) == Got(Get(s, k, name).value, Get(s, k, name).store, false)
  {
  }

  // ---------------------------------------------------------------------------
  // A run of assignments, applied one after another through Set, as
  // loadFile's loops do.

  datatype Assignment = Assignment(name: string, value: Value)

  /** The store after the assignments `xs`, in order. */
  function Apply(s: Store, xs: seq<Assignment>): Store
    decreases |xs|
  {
    if |xs| == 0 then s
    else
      var last := xs[|xs| - 1];
      Set(Apply(s, xs[..|xs| - 1]), last.name, last.value)
  }

  /** The value of the last assignment in `xs` to `name` in the map of kind `k`. */
  function LastWrite(xs: seq<Assignment>, k: Kind, name: string): Option<Value>
    decreases |xs|
  {
    if |xs| == 0 then None
    else
      var last := xs[|xs| - 1];
      if last.value.KindOf() == k && last.name == name then Some(last.value)
      else LastWrite(xs[..|xs| - 1], k, name)
  }

  /** Last writer wins: after a run of assignments each entry holds the value
      of the last assignment to it, and entries never assigned keep their
      previous values. */
  lemma {:induction false} ApplyLastWins(s: Store, xs: seq<Assignment>, k: Kind, name: string)
    ensures Lookup(Apply(s, xs), k, name) == if LastWrite(xs, k, name).Some? then LastWrite(xs, k, name) else Lookup(s, k, name)
    decreases |xs|
  {
    if |xs| > 0 {
      ApplyLastWins(s, xs[..|xs| - 1], k, name);
    }
  }

  // ---------------------------------------------------------------------------
  // Defaults

  /** The build target. `VSync` defaults to off on the Raspberry Pi build only. */
  datatype Platform = Desktop | RaspberryPi

  /** The bool defaults, assigned in this order. */
  function DefaultBools(p: Platform): map<string, bool> {
    map[
      "BackgroundJoystickInput" := false,
      "ParseGamelistOnly" := false,
      "DrawFramerate" := false,
      "ShowExit" := true,
      "Windowed" := false,
      "SplashScreen" := true,
      "ShowHiddenFiles" := false,
      "VSync" := p != RaspberryPi,
      "EnableSounds" := true,
      "ShowHelpPrompts" := true,
      "ScrapeRatings" := true,
      "IgnoreGamelist" := false,
      "HideConsole" := true,
      "QuickSystemSelect" := true,
      "SaveGamelistsOnExit" := true,
      "Debug" := false,
      "DebugGrid" := false,
      "DebugText" := false
    ]
  }

  /** The int defaults. The screensaver delay is five minutes in milliseconds. */
  function DefaultInts(): map<string, int32> {
    map[
      "ScreenSaverTime" := 5 * 60 * 1000,
      "ScraperResizeWidth" := 400,
      "ScraperResizeHeight" := 0,
      "DisplayNumber" := 0
    ]
  }

  /** The string defaults. */
  function DefaultStrings(): map<string, string> {
    map[
      "TransitionStyle" := "fade",
      "ThemeSet" := "",
      "ScreenSaverBehavior" := "dim",
      "Scraper" := "TheGamesDB",
      "ConfigDirectory" := ""
    ]
  }

  /** `setDefaults`: empty the bool and int maps, then assign the defaults.
      The float map is not touched, and the string map is overwritten but not
      emptied, so string entries without a default survive. */
  function SetDefaults(s: Store, p: Platform): (r: Store)
    ensures r.bools == DefaultBools(p)
    ensures r.ints == DefaultInts()
    ensures r.floats == s.floats
    ensures forall n | n in DefaultStrings() :: Lookup(r, StringKind, n) == Some(StringValue(DefaultStrings()[n]))
    ensures forall n | n !in DefaultStrings() :: Lookup(r, StringKind, n) == Lookup(s, StringKind, n)
  {
    var cleared := s.(bools := map[], ints := map[]);
    cleared.(
      bools := cleared.bools + DefaultBools(p),
      ints := cleared.ints + DefaultInts(),
      strings := cleared.strings + DefaultStrings())
  }

  /** Resetting to defaults twice is the same as resetting once. */
  lemma SetDefaultsIdempotent(s: Store, p: Platform)
    ensures SetDefaults(SetDefaults(s, p), p) == SetDefaults(s, p)
  {
    var once := SetDefaults(s, p);
    var twice := SetDefaults(once, p);
    forall k, n ensures Lookup(twice, k, n) == Lookup(once, k, n) {
    }
    Extensionality(twice, once);
  }

  /** A few of the bool defaults, as the settings menu sees them. */
  lemma DefaultBoolValues(s: Store, p: Platform)
    ensures Lookup(SetDefaults(s, p), BoolKind, "ShowExit") == Some(BoolValue(true))
    ensures Lookup(SetDefaults(s, p), BoolKind, "VSync") == Some(BoolValue(p == Desktop))
    ensures Lookup(SetDefaults(s, p), BoolKind, "Debug") == Some(BoolValue(false))
  {
  }

  /** The screensaver starts after five minutes, and the scraper and the
      configuration directory have their defaults. */
  lemma DefaultOtherValues(s: Store, p: Platform)
    ensures Lookup(SetDefaults(s, p), IntKind, "ScreenSaverTime") == Some(IntValue(300000))
    ensures Lookup(SetDefaults(s, p), StringKind, "Scraper") == Some(StringValue("TheGamesDB"))
    ensures Lookup(SetDefaults(s, p), StringKind, "ConfigDirectory") == Some(StringValue(""))
  {
  }

  // ---------------------------------------------------------------------------
  // The single instance


  /** The constructor: empty maps, then setDefaults. */
  function NewSettings(p: Platform): (r: Store)
    ensures r == Store(DefaultBools(p), DefaultInts(), map[], DefaultStrings())
  {
    SetDefaults(Empty, p)
  }

  /** `getInstance`, given the process-wide instance slot (None before the
      first call). Returns the instance and the slot afterwards. */
  function GetInstance(slot: Option<Store>, p: Platform): (r: (Store, Option<Store>))
    ensures r.1 == Some(r.0)
    ensures slot.Some? ==> r.0 == slot.value
    ensures slot.None? ==> r.0 == NewSettings(p)
  {
    match slot
    case Some(instance) => (instance, slot)
    case None =>
      var instance := NewSettings(p);
      (instance, Some(instance))
  }

  /** Every call after the first returns the instance the first one created
      and constructs nothing. */
  lemma GetInstanceStable(slot: Option<Store>, p: Platform, q: Platform)
    ensures GetInstance(GetInstance(slot, p).1, q) == GetInstance(slot, p)
  {
  }
}
