# Settings store of EmulationStation

This project models, in Dafny, the typed settings store of the front end
(`es-core/src/Settings.cpp`) together with the code that saves it to
`es_settings.cfg` and loads it back.

The store holds four independent maps from setting name to value, one per
kind: bool, int, float and string. The same name may exist in several maps at
once, and those entries are unrelated.

- **Accessors.** One macro generates `getBool`/`setBool`, `getInt`/`setInt`,
  `getFloat`/`setFloat` and `getString`/`setString`. Here they are
  `Settings.Get` and `Settings.Set`, which choose the map by a `Kind` (get) or
  by the kind of the value (set). A get of an absent name returns the kind's
  zero value (false, 0, +0.0, ""). Because the lookup goes through
  `operator[]`, it also inserts that zero value into the map. It reports
  `unset`, which stands for the "tried to use unset setting" log line.
- **Defaults.** `setDefaults` empties the bool and int maps and assigns the
  defaults. It does not touch the float map. It overwrites the default string
  entries but does not empty the string map. The `_RPI_` build switch becomes
  a `Platform` parameter: VSync defaults to off on `RaspberryPi`.
- **Single instance.** `getInstance` becomes a function of the instance slot,
  an `Option<Store>` that is `None` until the first call. The first call
  constructs the store, and the constructor runs `setDefaults` on empty maps.
- **Save.** `saveFile` writes the bool, int and float maps through `saveMap`.
  `saveMap` skips every name on the `settings_dont_save` list. The string map
  is written by a separate loop that has no exclusion check. Each map is
  visited in `std::map` key order, which `KeyOrder` models as lexicographic
  order on characters.
- **Load.** `loadFile` returns false, and leaves the store unchanged, when
  the file is missing or does not parse. Otherwise it runs four loops in turn:
  over the bool elements, then int, then float, then string. Each loop calls
  the setter for every element of its tag, in document order, so the last
  element for a name wins. It returns true even when the document has no
  elements.

A document is the sequence of its top-level elements. Each element has a tag
and optional `name` and `value` attributes. Turning values into attribute
text and back is done by a `Conversions` record of functions that the caller
supplies. A missing `name` reads as "" and a missing `value` reads as the
kind's zero value, which are the XML library's default arguments.

Where the code and its own comments disagree, the model follows the code:

- The comment at `es-core/src/Settings.cpp:12` says the listed names are
  never saved. `ConfigDirectory` is on that list, but it only ever lives in
  the string map, and the string loop (lines 112-116) does not consult the
  list. So it **is** written (`SettingsFile.SaveWritesConfigDirectory`).
- The same comment says the listed names are not used even when someone puts
  them in the file by hand. `loadFile` (lines 136-147) applies them like any
  other name (`SettingsFile.LoadHandEdited`).
- The getter logs a warning for an unset name and then returns through
  `operator[]` (line 158), which inserts the zero value. The model keeps this
  side effect.

## Model

| member | source | states |
|---|---|---|
| Settings.Set | es-core/src/Settings.cpp:160-168 | a set makes the entry of the value's kind and name hold that value; every other entry of all four maps is unchanged |
| Settings.Get | es-core/src/Settings.cpp:152-168 | a get returns a value of the requested kind. For a present name it returns the stored value, reports nothing and leaves the store as it was. For an absent name it reports `unset`, returns the kind's zero value and inserts that value. No other entry changes |
| Settings.GetAfterSet | es-core/src/Settings.cpp:152-168 | a get right after a set of the same kind and name returns the value set, without the diagnostic and without changing the store |
| Settings.GetTwice | es-core/src/Settings.cpp:152-158 | after one get the name is present: a second get returns the same value, silently, and changes nothing |
| Settings.ApplyLastWins | es-core/src/Settings.cpp:136-147 | after a run of set calls, each entry holds the value of the last call to it; entries no call names keep their previous values |
| Settings.SetDefaults | es-core/src/Settings.cpp:41-84 | afterwards the bool and int maps are exactly the default tables, with nothing left from before. The float map is unchanged. Each default string name holds its default, and every other string entry keeps its previous value |
| Settings.SetDefaultsIdempotent | es-core/src/Settings.cpp:41-84 | resetting to defaults twice gives the same store as resetting once |
| Settings.DefaultBoolValues | es-core/src/Settings.cpp:45-71 | after setDefaults: ShowExit is true, VSync is true except on the Raspberry Pi build, Debug is false |
| Settings.DefaultOtherValues | es-core/src/Settings.cpp:73-83 | after setDefaults: ScreenSaverTime is 300000 (five minutes in milliseconds), Scraper is "TheGamesDB", ConfigDirectory is "" |
| Settings.NewSettings | es-core/src/Settings.cpp:27-30 | a freshly constructed store has exactly the default bools, ints and strings and no floats |
| Settings.GetInstance | es-core/src/Settings.cpp:32-39 | the slot afterwards holds the returned instance. An existing instance is returned unchanged; with no instance, a newly constructed one is returned |
| Settings.GetInstanceStable | es-core/src/Settings.cpp:32-39 | a call after the first returns the same instance and leaves the slot as it was; nothing is constructed again |
| KeyOrder.SortedKeys | es-core/src/Settings.cpp:89 | a map's keys in iteration order: each key exactly once, strictly ascending |
| SettingsFile.Kept | es-core/src/Settings.cpp:89-93 | the "don't save" check keeps exactly the keys not on the list, and ascending keys stay ascending, which for the key list of a map fixes the result |
| SettingsFile.Emit | es-core/src/Settings.cpp:95-97 | one element per listed name, in the same order, tagged with the map's tag and carrying the name and that entry's value as text |
| SettingsFile.GroupHasShape | es-core/src/Settings.cpp:86-116 | the elements one map contributes are exactly its saved entries, each with its own value, names strictly ascending, all of one tag |
| SettingsFile.Convert | es-core/src/Settings.cpp:136-147 | an attribute is read as a value of the loop's kind; a missing attribute reads as that kind's zero value |
| SettingsFile.Save | es-core/src/Settings.cpp:87-119 | every element carries a known tag, a name that is saved under that kind, and that entry's value as text. Saved means: present, and either a string or not on the exclusion list. Every saved entry has an element. The groups come in the order bool, int, float, string. Within a group the names strictly ascend, so no name is written twice |
| SettingsFile.SaveOmitsExcluded | es-core/src/Settings.cpp:89-93 | no bool, int or float element of a saved file carries a name on the exclusion list (the list itself is at lines 15-25); string elements are not filtered |
| SettingsFile.SaveWritesConfigDirectory | es-core/src/Settings.cpp:111-116 | when the ConfigDirectory string is set, the saved file has a string element with that name and value, even though the name is on the exclusion list |
| SettingsFile.LastElement | es-core/src/Settings.cpp:136-146 | the element a load applies last for a tag and name: it exists exactly when some element has that tag and name, and no later element does |
| SettingsFile.WalkLastWrite | es-core/src/Settings.cpp:136-147 | one load loop writes only its own kind, and its last write to a name is the value of the document's last element with that tag and name |
| SettingsFile.Load | es-core/src/Settings.cpp:121-149 | the result is true exactly when the file parsed. A missing or unparsable file leaves the store unchanged. Otherwise each entry takes the value of the document's last element for its kind and name, when there is one, and keeps its own value when there is none. Excluded names are applied too |
| SettingsFile.LoadTwice | es-core/src/Settings.cpp:121-149 | loading the same file a second time changes nothing |
| SettingsFile.LoadHandEdited | es-core/src/Settings.cpp:136-141 | a hand-written `Debug` element is applied despite the exclusion list. An int whose text does not read as a number does not fail the load |
| SettingsFile.FileValueOfSaved | es-core/src/Settings.cpp:95-97 | read back through exact conversions, a saved document gives every saved entry its stored value and gives nothing for any other entry |
| SettingsFile.RoundTrip | es-core/src/Settings.cpp:101-148 | saving store s and loading the file into store t gives t with s's entries laid over it. Only the non-excluded bool, int and float entries and all string entries of s are laid over; t keeps its own values for the excluded names |
| SettingsFile.SaveLoadScenario | es-core/src/Settings.cpp:27-148 | from the defaults, set DisplayNumber to 2, ThemeSet to "carbon" and Debug to true, then save. Loading that file into a fresh store gives DisplayNumber 2 and ThemeSet "carbon", and Debug stays false. Loading a missing file returns false and leaves a fresh store at its defaults |

## Left out

- XML text and the XML library. Parsing and serialising text are not modelled: a document is its sequence of top-level elements, and a file that does not parse is the input `Unparsable`. Elements nested below the top level, comments and other node kinds are not represented. Neither are repeated attributes or case rules for tag names.
- Value conversions (`as_bool`, `as_int`, `as_float`, `set_value`). They are the caller-supplied functions of `Conversions`. The library's rules for reading text (which words count as true, how out-of-range integers are clamped, float formatting) are not modelled.
- RoundTrip: it holds only for conversions under which every written value reads back as itself (`Exact`). This is an assumption about the XML library that the model does not check. Float text in particular may not read back bit for bit. It also assumes that names and string values pass through the file unchanged, which `Exact` does not state, and that assumption can fail in three ways. First, `c_str()` (lines 96, 114 and 115) cuts a name or string value at its first NUL character, so `"a\0b"` is saved and reloaded as `"a"`; the model writes it whole. Second, the XML library may rewrite attribute text, for example by normalising whitespace. Third, bytes that are not valid UTF-8 cannot be represented as a Dafny string.
- Float values. They are kept as an uninterpreted 32-bit pattern (`Float32`); no floating-point arithmetic or formatting is modelled.
- File-system access. Building the path `<config directory>/es_settings.cfg` and checking that the file exists are not modelled; the existence check is the input `Missing`. Writing the document to disk is not modelled either. Its result is ignored by the code, so a failed write is not represented.
- Logging. The "tried to use unset setting" line appears only as `Get`'s `unset` flag. The "could not parse" line on load is not modelled.
- Settings.Get: `getString` returns a `const std::string&` into the string map (line 168), not a copy. A later `setString` of the same name, or `setDefaults` for a default string name, overwrites the stored string, and a caller still holding the reference reads the new value. The model returns the value as it is at the time of the call, so this aliasing is not modelled.
- Heap allocation and the raw instance pointer. The instance is a value in an `Option` slot. Changes made through the pointer are modelled by the caller passing the updated store along.
- Concurrency. The code has no locking, and the model is sequential.
- `Settings.h` is not part of this model. The fields' types are taken from the accessor macro's instantiations.
