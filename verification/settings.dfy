/** `SlicerSettings` of grslicer/settings.py: a flat store from setting
    name to converted value over the fixed catalogue.  Reading a missing
    name and writing an undeclared one fail with `KeyError`; a value is
    converted by its setting's `convert` when it is written and is neither
    clamped nor checked against the declared range.

    The operations take the declared settings as a map from name to
    (group key, setting), which `Declared` builds from the catalogue's two
    lookup tables, and the order in which `load` visits the names, which in
    the source is the iteration order of a dictionary and so is left open.

    The store's dictionary is private to the class, so every store the
    program can hold is one built by `__init__` and changed by
    `__setitem__` and `load`; `Valid` is the invariant those three keep. */
module Settings {
  import opened Outcomes
  import opened SettingValues
  import opened Catalogue

  datatype SettingsError = KeyError(key: string) | ConversionFailed(key: string, error: ConvertError)

  /** Declared settings by name: the group key and the setting. */
  type Schema = map<string, Entry>

  /** Each setting is filed under its own name. */
  predicate Consistent(decl: Schema) {
    forall n | n in decl :: decl[n].1.name == n
  }

  /** The declared settings of a list of entries with distinct names, read
      through its reverse map and its settings dictionary. */
  function SchemaOf(es: seq<Entry>): (r: Schema)
    requires UniqueNames(es)
    ensures r.Keys == ReverseMapOf(es).Keys == NameSet(es)
    ensures forall n | n in r :: && r[n].0 == ReverseMapOf(es)[n]
                                 && r[n].0 in SettingsDictOf(es) && n in SettingsDictOf(es)[r[n].0]
                                 && r[n].1 == SettingsDictOf(es)[r[n].0][n]
    ensures forall k | 0 <= k < |es| :: es[k].1.name in r && r[es[k].1.name] == es[k]
    ensures Consistent(r)
  {
    TablesAgree(es);
    map n | n in ReverseMapOf(es) :: (ReverseMapOf(es)[n], SettingsDictOf(es)[ReverseMapOf(es)[n]][n])
  }

  /** A schema built from entries whose defaults fit has only defaults
      that fit. */
  lemma SchemaDefaultsFit(es: seq<Entry>)
    requires UniqueNames(es)
    requires forall k | 0 <= k < |es| :: DefaultFits(es[k].1)
    ensures forall n | n in SchemaOf(es) :: DefaultFits(SchemaOf(es)[n].1)
  {
    forall n | n in SchemaOf(es)
      ensures DefaultFits(SchemaOf(es)[n].1)
    {
      assert n in NameSet(es);
      var k :| 0 <= k < |es| && es[k].1.name == n;
      assert SchemaOf(es)[n] == es[k];
    }
  }

  /** The catalogue's declared settings: every entry of `settings_iter()`
      under its own name, with a default that fits. */
  function Declared(): (r: Schema)
    ensures forall k | 0 <= k < |Entries| :: Entries[k].1.name in r && r[Entries[k].1.name] == Entries[k]
    ensures Consistent(r)
    ensures forall n | n in r :: DefaultFits(r[n].1)
  {
    CatalogueNamesUnique();
    CatalogueDefaultsFit();
    SchemaDefaultsFit(Entries);
    SchemaOf(Entries)
  }

  /** `DEFAULT_SETTINGS_DICT[DEFAULT_SETTINGS_GROUPS_REVERSE[key]][key]`
      finds the declared setting of every declared name, and fails with
      `KeyError` for every other key. */
  lemma DeclaredReadsTables()
    ensures Declared().Keys == GroupsReverse.Keys == NameSet(Entries)
    ensures forall n | n in Declared() :: && Declared()[n].0 == GroupsReverse[n]
                                          && Declared()[n].0 in SettingsDict && n in SettingsDict[Declared()[n].0]
                                          && Declared()[n].1 == SettingsDict[Declared()[n].0][n]
  {
    CatalogueNamesUnique();
  }

  /** The type a setting stores after conversion. */
  predicate WellTyped(kind: Kind, v: PyValue) {
    match kind
    case FloatRange(_, _, _) => v.PyFloat?
    case IntRange(_, _, _) => v.PyInt?
    case Flag => v.PyBool?
  }

  /** `prop.convert(v)` for a setting of class `kind`.  Bools and numbers
      always convert; None converts only for a bool setting; text depends
      on the parser. */
  function Convert(kind: Kind, v: PyValue, parsers: TextParsers): (r: Result<PyValue, ConvertError>)
    ensures r.Ok? ==> WellTyped(kind, r.value)
    ensures v.PyBool? || v.PyInt? || v.PyFloat? ==> r.Ok?
    ensures v.PyNone? ==> (r.Ok? <==> kind.Flag?)
    ensures kind.Flag? ==> r.Ok?
  {
    match kind
    case FloatRange(_, _, _) =>
      (match FloatConvert(v, parsers) case Ok(x) => Ok(PyFloat(x)) case Err(e) => Err(e))
    case IntRange(_, _, _) =>
      (match IntConvert(v, parsers) case Ok(n) => Ok(PyInt(n)) case Err(e) => Err(e))
    case Flag => Ok(PyBool(BoolConvert(v)))
  }

  /** A stored value converts to itself, so converting twice is converting
      once. */
  lemma ConvertIdempotent(kind: Kind, v: PyValue, parsers: TextParsers)
    ensures WellTyped(kind, v) ==> Convert(kind, v, parsers) == Ok(v)
    ensures Convert(kind, v, parsers).Ok? ==>
      Convert(kind, Convert(kind, v, parsers).value, parsers) == Convert(kind, v, parsers)
  {
  }

  /** A declared default converts, and to a value of the same number. */
  lemma DefaultConverts(item: SettingsItem, parsers: TextParsers)
    requires DefaultFits(item)
    ensures Convert(item.kind, item.default, parsers).Ok?
    ensures item.kind.FloatRange? && item.default.PyInt? ==>
      Convert(item.kind, item.default, parsers) == Ok(PyFloat(item.default.i as real))
    ensures !(item.kind.FloatRange? && item.default.PyInt?) ==>
      Convert(item.kind, item.default, parsers) == Ok(item.default)
  {
  }

  datatype SlicerSettings = SlicerSettings(values: map<string, PyValue>)

  /** One value per declared setting, each of the type its setting stores. */
  ghost predicate Valid(decl: Schema, s: SlicerSettings) {
    && s.values.Keys == decl.Keys
    && forall n | n in s.values :: WellTyped(decl[n].1.kind, s.values[n])
  }

  // ---------------------------------------------------------------------------
  // __getitem__ and __setitem__

  /** `settings[key]`. */
  function GetItem(s: SlicerSettings, key: string): (r: Result<PyValue, SettingsError>)
    ensures r.Err? <==> key !in s.values
    ensures r.Err? ==> r.error == KeyError(key)
    ensures r.Ok? ==> r.value == s.values[key]
  {
    if key in s.values then Ok(s.values[key]) else Err(KeyError(key))
  }

  /** In a valid store exactly the declared names can be read, each with
      the type its setting stores. */
  lemma GetItemDeclared(decl: Schema, s: SlicerSettings, key: string)
    requires Valid(decl, s)
    ensures GetItem(s, key).Ok? <==> key in decl
    ensures GetItem(s, key).Ok? ==> WellTyped(decl[key].1.kind, GetItem(s, key).value)
  {
  }

  /** `settings[key] = value`: the setting is looked up first, so an
      undeclared key fails before any conversion; then the converted value
      replaces the key's value and nothing else changes. */
  function SetItem(decl: Schema, s: SlicerSettings, key: string, v: PyValue, parsers: TextParsers)
    : (r: Result<SlicerSettings, SettingsError>)
    ensures key !in decl <==> r == Err(KeyError(key))
    ensures key in decl ==> (r.Ok? <==> Convert(decl[key].1.kind, v, parsers).Ok?)
    ensures r.Err? && key in decl ==> r.error == ConversionFailed(key, Convert(decl[key].1.kind, v, parsers).error)
    ensures r.Ok? ==> && key in decl
                      && r.value.values.Keys == s.values.Keys + {key}
                      && Convert(decl[key].1.kind, v, parsers) == Ok(r.value.values[key])
                      && forall n | n in s.values && n != key :: r.value.values[n] == s.values[n]
    ensures r.Ok? && Valid(decl, s) ==> Valid(decl, r.value)
  {
    if key !in decl then Err(KeyError(key))
    else
      match Convert(decl[key].1.kind, v, parsers)
      case Err(e) => Err(ConversionFailed(key, e))
      case Ok(x) => Ok(SlicerSettings(s.values[key := x]))
  }

  /** Writing the same value twice leaves the store as writing it once. */
  lemma SetItemIdempotent(decl: Schema, s: SlicerSettings, key: string, v: PyValue, parsers: TextParsers)
    requires SetItem(decl, s, key, v, parsers).Ok?
    ensures SetItem(decl, SetItem(decl, s, key, v, parsers).value, key, v, parsers) == SetItem(decl, s, key, v, parsers)
  {
    var x := SetItem(decl, s, key, v, parsers).value.values[key];
    assert s.values[key := x][key := x] == s.values[key := x];
  }

  /** Writing back the value just read changes nothing. */
  lemma SetItemOwnValue(decl: Schema, s: SlicerSettings, key: string, parsers: TextParsers)
    requires Valid(decl, s) && key in s.values
    ensures SetItem(decl, s, key, s.values[key], parsers) == Ok(s)
  {
    ConvertIdempotent(decl[key].1.kind, s.values[key], parsers);
    assert s.values[key := s.values[key]] == s.values;
  }

  // ---------------------------------------------------------------------------
  // load

  /** The two `form_key_str` patterns in use: `'{group}[{key}]'` and
      `'{key}'`. */
  datatype KeyFormat = GroupAndKey | KeyOnly

  /** `form_key_str.format(group=group, key=name)`. */
  function FormKey(fmt: KeyFormat, group: string, name: string): string {
    match fmt
    case GroupAndKey => group + "[" + name + "]"
    case KeyOnly => name
  }

  /** The bare pattern is the name itself; the grouped one is the group key
      followed by the name in square brackets. */
  lemma FormKeyLayout(fmt: KeyFormat, group: string, name: string)
    ensures fmt == KeyOnly ==> FormKey(fmt, group, name) == name
    ensures fmt == GroupAndKey ==> var r := FormKey(fmt, group, name);
      && |r| == |group| + |name| + 2
      && r[..|group|] == group && r[|group|] == '['
      && r[|group| + 1..|r| - 1] == name && r[|r| - 1] == ']'
  {
    if fmt == GroupAndKey {
      var r := FormKey(fmt, group, name);
      assert r[|group| + 1..|r| - 1] == name;
    }
  }

  /** `form.get(form_key)` for a declared name, None when it is absent or
      None. */
  function FormEntry(decl: Schema, form: map<string, PyValue>, fmt: KeyFormat, name: string): Option<PyValue>
    requires name in decl
  {
    var fk := FormKey(fmt, decl[name].0, name);
    if fk in form && form[fk] != PyNone then Some(form[fk]) else None
  }

  /** The name is supplied by the form but its value does not convert. */
  predicate Rejected(decl: Schema, form: map<string, PyValue>, fmt: KeyFormat, parsers: TextParsers, n: string)
    requires n in decl
  {
    FormEntry(decl, form, fmt, n).Some? && Convert(decl[n].1.kind, FormEntry(decl, form, fmt, n).value, parsers).Err?
  }

  /** The value `load` leaves for a declared name: the converted form value
      when the form supplies one that converts, else the value before. */
  function Loaded(decl: Schema, s: SlicerSettings, form: map<string, PyValue>, fmt: KeyFormat, parsers: TextParsers, n: string)
    : Option<PyValue>
    requires n in decl
  {
    match FormEntry(decl, form, fmt, n)
    case Some(v) =>
      (match Convert(decl[n].1.kind, v, parsers) case Ok(x) => Some(x) case Err(_) => None)
    case None => if n in s.values then Some(s.values[n]) else None
  }

  /** The loop of `load` over `names`: each name the form supplies is
      written with `__setitem__`; the first failing write ends the loop and
      is the error reported. */
  function LoadFrom(decl: Schema, s: SlicerSettings, names: seq<string>, form: map<string, PyValue>, fmt: KeyFormat,
                    parsers: TextParsers): (r: Result<SlicerSettings, SettingsError>)
    requires forall i | 0 <= i < |names| :: names[i] in decl
    ensures r.Ok? <==> forall i | 0 <= i < |names| :: !Rejected(decl, form, fmt, parsers, names[i])
    ensures r.Err? ==> exists i | 0 <= i < |names| ::
      && Rejected(decl, form, fmt, parsers, names[i])
      && (forall j | 0 <= j < i :: !Rejected(decl, form, fmt, parsers, names[j]))
      && r.error == ConversionFailed(names[i], Convert(decl[names[i]].1.kind, FormEntry(decl, form, fmt, names[i]).value, parsers).error)
    decreases |names|
  {
    if |names| == 0 then Ok(s)
    else
      var n := names[0];
      var rest := names[1..];
      assert forall i | 1 <= i < |names| :: names[i] == rest[i - 1];
      match FormEntry(decl, form, fmt, n)
      case None => LoadFrom(decl, s, rest, form, fmt, parsers)
      case Some(v) =>
        match SetItem(decl, s, n, v, parsers)
        case Err(e) => Err(e)
        case Ok(s') => LoadFrom(decl, s', rest, form, fmt, parsers)
  }

  /** A successful loop writes only the names it visits. */
  lemma {:induction false} LoadFromFrame(decl: Schema, s: SlicerSettings, names: seq<string>, form: map<string, PyValue>,
                                         fmt: KeyFormat, parsers: TextParsers)
    requires forall i | 0 <= i < |names| :: names[i] in decl
    requires LoadFrom(decl, s, names, form, fmt, parsers).Ok?
    ensures var t := LoadFrom(decl, s, names, form, fmt, parsers).value;
      && (forall n | n in t.values :: n in s.values || n in names)
      && (forall n | n in s.values && n !in names :: n in t.values && t.values[n] == s.values[n])
    decreases |names|
  {
    if |names| > 0 {
      var n := names[0];
      var rest := names[1..];
      assert forall i | 0 <= i < |rest| :: rest[i] == names[i + 1];
      assert forall m | m in rest :: m in names;
      assert forall m | m in names && m != n :: m in rest;
      match FormEntry(decl, form, fmt, n)
      case None =>
        LoadFromFrame(decl, s, rest, form, fmt, parsers);
      case Some(v) =>
        var s' := SetItem(decl, s, n, v, parsers).value;
        LoadFromFrame(decl, s', rest, form, fmt, parsers);
    }
  }

  /** After a successful loop each visited name holds the value `Loaded`
      gives it, and is present exactly when `Loaded` gives one. */
  lemma {:induction false} LoadFromValues(decl: Schema, s: SlicerSettings, names: seq<string>, form: map<string, PyValue>,
                                          fmt: KeyFormat, parsers: TextParsers)
    requires forall i | 0 <= i < |names| :: names[i] in decl
    requires LoadFrom(decl, s, names, form, fmt, parsers).Ok?
    ensures var t := LoadFrom(decl, s, names, form, fmt, parsers).value;
      forall i | 0 <= i < |names| ::
        && (Loaded(decl, s, form, fmt, parsers, names[i]).Some? <==> names[i] in t.values)
        && (names[i] in t.values ==> Loaded(decl, s, form, fmt, parsers, names[i]) == Some(t.values[names[i]]))
    decreases |names|
  {
    if |names| > 0 {
      var t := LoadFrom(decl, s, names, form, fmt, parsers).value;
      var n := names[0];
      var rest := names[1..];
      assert forall i | 0 <= i < |rest| :: rest[i] == names[i + 1];
      var s' := match FormEntry(decl, form, fmt, n)
        case None => s
        case Some(v) => SetItem(decl, s, n, v, parsers).value;
      assert t == LoadFrom(decl, s', rest, form, fmt, parsers).value;
      LoadFromValues(decl, s', rest, form, fmt, parsers);
      LoadFromFrame(decl, s', rest, form, fmt, parsers);
      forall i | 0 <= i < |rest|
        ensures Loaded(decl, s', form, fmt, parsers, rest[i]) == Loaded(decl, s, form, fmt, parsers, rest[i])
      {
      }
      if n !in rest {
        assert Loaded(decl, s', form, fmt, parsers, n) == Loaded(decl, s, form, fmt, parsers, n);
        assert n in t.values <==> n in s'.values;
      } else {
        var j :| 0 <= j < |rest| && rest[j] == n;
      }
    }
  }

  /** The names are each declared name, in some order: `load` walks the
      reverse map, whose order the source leaves to the dictionary. */
  predicate Enumerates(order: seq<string>, decl: Schema) {
    && (forall i | 0 <= i < |order| :: order[i] in decl)
    && (forall n | n in decl :: n in order)
  }

  /** The loop over an enumeration of the declared names, described per
      declared name. */
  lemma LoadFromAll(decl: Schema, order: seq<string>, s: SlicerSettings, form: map<string, PyValue>, fmt: KeyFormat,
                    parsers: TextParsers)
    requires Enumerates(order, decl)
    ensures var r := LoadFrom(decl, s, order, form, fmt, parsers);
      && (r.Ok? <==> forall n | n in decl :: !Rejected(decl, form, fmt, parsers, n))
      && (r.Ok? ==> forall n | n in decl ::
            && (Loaded(decl, s, form, fmt, parsers, n).Some? <==> n in r.value.values)
            && (n in r.value.values ==> Loaded(decl, s, form, fmt, parsers, n) == Some(r.value.values[n])))
      && (r.Ok? ==> forall n | n !in decl :: (n in r.value.values <==> n in s.values))
      && (r.Ok? ==> forall n | n !in decl && n in s.values :: r.value.values[n] == s.values[n])
  {
    var r := LoadFrom(decl, s, order, form, fmt, parsers);
    if r.Ok? {
      forall n | n in decl
        ensures !Rejected(decl, form, fmt, parsers, n)
      {
        var i :| 0 <= i < |order| && order[i] == n;
      }
      LoadFromFrame(decl, s, order, form, fmt, parsers);
      LoadFromValues(decl, s, order, form, fmt, parsers);
      forall n | n in decl
        ensures && (Loaded(decl, s, form, fmt, parsers, n).Some? <==> n in r.value.values)
                && (n in r.value.values ==> Loaded(decl, s, form, fmt, parsers, n) == Some(r.value.values[n]))
      {
        var i :| 0 <= i < |order| && order[i] == n;
      }
      assert forall m | m in order :: m in decl;
    }
  }

  /** `settings.load(form, form_key_str)`.  It fails exactly when the form
      supplies a value that does not convert, naming such a setting.  On
      success every declared name holds what `Loaded` gives it (present
      exactly when `Loaded` gives a value), and any other name is kept. */
  function Load(decl: Schema, order: seq<string>, s: SlicerSettings, form: map<string, PyValue>, fmt: KeyFormat,
                parsers: TextParsers): (r: Result<SlicerSettings, SettingsError>)
    requires Enumerates(order, decl)
    ensures r.Ok? <==> forall n | n in decl :: !Rejected(decl, form, fmt, parsers, n)
    ensures r.Err? ==> exists n | n in decl ::
      && Rejected(decl, form, fmt, parsers, n)
      && r.error == ConversionFailed(n, Convert(decl[n].1.kind, FormEntry(decl, form, fmt, n).value, parsers).error)
    ensures r.Ok? ==> forall n | n in decl ::
      && (Loaded(decl, s, form, fmt, parsers, n).Some? <==> n in r.value.values)
      && (n in r.value.values ==> Loaded(decl, s, form, fmt, parsers, n) == Some(r.value.values[n]))
    ensures r.Ok? ==> forall n | n !in decl :: (n in r.value.values <==> n in s.values)
    ensures r.Ok? ==> forall n | n !in decl && n in s.values :: r.value.values[n] == s.values[n]
  {
    LoadFromAll(decl, order, s, form, fmt, parsers);
    LoadFrom(decl, s, order, form, fmt, parsers)
  }

  /** Loading keeps a valid store valid. */
  lemma LoadKeepsValid(decl: Schema, order: seq<string>, s: SlicerSettings, form: map<string, PyValue>, fmt: KeyFormat,
                       parsers: TextParsers)
    requires Enumerates(order, decl) && Valid(decl, s)
    requires Load(decl, order, s, form, fmt, parsers).Ok?
    ensures Valid(decl, Load(decl, order, s, form, fmt, parsers).value)
  {
    var t := Load(decl, order, s, form, fmt, parsers).value;
    forall n | n in t.values
      ensures n in decl && WellTyped(decl[n].1.kind, t.values[n])
    {
      assert n in decl;
    }
  }

  /** Two results of loading the same form into the same store that both
      satisfy the description of `Load` are the same store. */
  lemma LoadedDetermines(decl: Schema, s: SlicerSettings, form: map<string, PyValue>, fmt: KeyFormat,
                         parsers: TextParsers, t: SlicerSettings, u: SlicerSettings)
    requires forall n | n in decl ::
      && (Loaded(decl, s, form, fmt, parsers, n).Some? <==> n in t.values)
      && (n in t.values ==> Loaded(decl, s, form, fmt, parsers, n) == Some(t.values[n]))
    requires forall n | n in decl ::
      && (Loaded(decl, s, form, fmt, parsers, n).Some? <==> n in u.values)
      && (n in u.values ==> Loaded(decl, s, form, fmt, parsers, n) == Some(u.values[n]))
    requires forall n | n !in decl :: (n in t.values <==> n in s.values) && (n in u.values <==> n in s.values)
    requires forall n | n !in decl && n in s.values :: t.values[n] == s.values[n] && u.values[n] == s.values[n]
    ensures t == u
  {
    assert t.values.Keys == u.values.Keys;
    assert t.values == u.values;
  }

  /** The order in which `load` visits the names does not change a
      successful result. */
  lemma LoadOrderIrrelevant(decl: Schema, order1: seq<string>, order2: seq<string>, s: SlicerSettings,
                            form: map<string, PyValue>, fmt: KeyFormat, parsers: TextParsers)
    requires Enumerates(order1, decl) && Enumerates(order2, decl)
    requires Load(decl, order1, s, form, fmt, parsers).Ok?
    ensures Load(decl, order2, s, form, fmt, parsers) == Load(decl, order1, s, form, fmt, parsers)
  {
    LoadedDetermines(decl, s, form, fmt, parsers,
      Load(decl, order1, s, form, fmt, parsers).value, Load(decl, order2, s, form, fmt, parsers).value);
  }

  /** Loading the same form a second time changes nothing. */
  lemma LoadIdempotent(decl: Schema, order: seq<string>, s: SlicerSettings, form: map<string, PyValue>, fmt: KeyFormat,
                       parsers: TextParsers)
    requires Enumerates(order, decl)
    requires Load(decl, order, s, form, fmt, parsers).Ok?
    ensures var t := Load(decl, order, s, form, fmt, parsers).value;
      Load(decl, order, t, form, fmt, parsers) == Ok(t)
  {
    var t := Load(decl, order, s, form, fmt, parsers).value;
    var u := Load(decl, order, t, form, fmt, parsers).value;
    forall n | n in decl
      ensures Loaded(decl, t, form, fmt, parsers, n) == Loaded(decl, s, form, fmt, parsers, n)
    {
    }
    LoadedDetermines(decl, s, form, fmt, parsers, t, u);
  }

  /** A form that supplies nothing leaves the store as it is. */
  lemma LoadNothing(decl: Schema, order: seq<string>, s: SlicerSettings, form: map<string, PyValue>, fmt: KeyFormat,
                    parsers: TextParsers)
    requires Enumerates(order, decl)
    requires forall n | n in decl :: FormEntry(decl, form, fmt, n).None?
    ensures Load(decl, order, s, form, fmt, parsers) == Ok(s)
  {
    LoadedDetermines(decl, s, form, fmt, parsers, Load(decl, order, s, form, fmt, parsers).value, s);
  }

  /** Loading a valid store's own values, keyed by bare name, into any
      store reproduces it. */
  lemma LoadOwnValues(decl: Schema, order: seq<string>, s: SlicerSettings, t: SlicerSettings, parsers: TextParsers)
    requires Enumerates(order, decl) && Valid(decl, s)
    ensures Load(decl, order, t, s.values, KeyOnly, parsers) == Ok(s) || exists n | n in t.values :: n !in decl
    ensures Valid(decl, t) ==> Load(decl, order, t, s.values, KeyOnly, parsers) == Ok(s)
  {
    forall n | n in decl
      ensures Loaded(decl, t, s.values, KeyOnly, parsers, n) == Some(s.values[n])
    {
      ConvertIdempotent(decl[n].1.kind, s.values[n], parsers);
    }
    var r := Load(decl, order, t, s.values, KeyOnly, parsers);
    assert r.Ok?;
    if forall n | n in t.values :: n in decl {
      LoadedDetermines(decl, t, s.values, KeyOnly, parsers, r.value, s);
    }
  }

  // ---------------------------------------------------------------------------
  // __init__

  /** The first loop of `__init__` over `names`: each setting's converted
      default is stored under its name. */
  function DefaultsFrom(decl: Schema, names: seq<string>, acc: map<string, PyValue>, parsers: TextParsers)
    : (r: Result<map<string, PyValue>, SettingsError>)
    requires forall i | 0 <= i < |names| :: names[i] in decl
    ensures r.Ok? <==> forall i | 0 <= i < |names| :: Convert(decl[names[i]].1.kind, decl[names[i]].1.default, parsers).Ok?
    ensures r.Err? ==> exists i | 0 <= i < |names| ::
      && Convert(decl[names[i]].1.kind, decl[names[i]].1.default, parsers).Err?
      && r.error == ConversionFailed(names[i], Convert(decl[names[i]].1.kind, decl[names[i]].1.default, parsers).error)
    ensures r.Ok? ==> forall n :: n in r.value <==> n in acc || n in names
    ensures r.Ok? ==> forall i | 0 <= i < |names| ::
      Convert(decl[names[i]].1.kind, decl[names[i]].1.default, parsers) == Ok(r.value[names[i]])
    ensures r.Ok? ==> forall n | n in acc && n !in names :: r.value[n] == acc[n]
    decreases |names|
  {
    if |names| == 0 then Ok(acc)
    else
      var n := names[0];
      var rest := names[1..];
      assert forall i | 1 <= i < |names| :: names[i] == rest[i - 1];
      assert forall m | m in names :: m == n || m in rest;
      match Convert(decl[n].1.kind, decl[n].1.default, parsers)
      case Err(e) => Err(ConversionFailed(n, e))
      case Ok(x) => DefaultsFrom(decl, rest, acc[n := x], parsers)
  }

  /** What `__init__` converts for a declared name: the value the mapping
      supplies, else the declared default. */
  function InitialInput(decl: Schema, form: map<string, PyValue>, n: string): PyValue
    requires n in decl
  {
    match FormEntry(decl, form, KeyOnly, n)
    case Some(v) => v
    case None => decl[n].1.default
  }

  /** Every declared default converts. */
  predicate DefaultsConvert(decl: Schema, parsers: TextParsers) {
    forall n | n in decl :: Convert(decl[n].1.kind, decl[n].1.default, parsers).Ok?
  }

  /** The defaults loop over an enumeration of the declared names stores a
      valid store holding every converted default. */
  lemma DefaultsFromAll(decl: Schema, order: seq<string>, parsers: TextParsers)
    requires Enumerates(order, decl)
    ensures var d := DefaultsFrom(decl, order, map[], parsers);
      && (d.Ok? <==> DefaultsConvert(decl, parsers))
      && (d.Ok? ==> d.value.Keys == decl.Keys)
      && (d.Ok? ==> forall n | n in decl :: Convert(decl[n].1.kind, decl[n].1.default, parsers) == Ok(d.value[n]))
      && (d.Ok? ==> Valid(decl, SlicerSettings(d.value)))
  {
    var d := DefaultsFrom(decl, order, map[], parsers);
    if d.Ok? {
      forall n | n in decl
        ensures Convert(decl[n].1.kind, decl[n].1.default, parsers) == Ok(d.value[n])
      {
        var i :| 0 <= i < |order| && order[i] == n;
      }
      assert forall m | m in order :: m in decl;
    } else {
      var i :| 0 <= i < |order| && Convert(decl[order[i]].1.kind, decl[order[i]].1.default, parsers).Err?;
    }
  }

  /** `SlicerSettings(settings)`: store every converted default, then, when
      `settings` is a non-empty mapping, load it keyed by bare name.  It
      succeeds exactly when every default and every supplied value
      converts; each declared name then holds its converted input. */
  function Init(decl: Schema, order: seq<string>, form: map<string, PyValue>, parsers: TextParsers)
    : (r: Result<SlicerSettings, SettingsError>)
    requires Enumerates(order, decl)
    ensures r.Ok? <==> && DefaultsConvert(decl, parsers)
                       && (|form| == 0 || forall n | n in decl :: !Rejected(decl, form, KeyOnly, parsers, n))
    ensures r.Ok? ==> Valid(decl, r.value)
    ensures r.Ok? ==> forall n | n in decl :: Convert(decl[n].1.kind, InitialInput(decl, form, n), parsers) == Ok(r.value.values[n])
  {
    DefaultsFromAll(decl, order, parsers);
    var base :- DefaultsFrom(decl, order, map[], parsers);
    if |form| > 0 then
      var r := Load(decl, order, SlicerSettings(base), form, KeyOnly, parsers);
      if r.Ok? then LoadKeepsValid(decl, order, SlicerSettings(base), form, KeyOnly, parsers); r else r
    else
      assert forall n | n in decl :: FormEntry(decl, form, KeyOnly, n).None?;
      Ok(SlicerSettings(base))
  }

  /** With no mapping, or an empty one, `__init__` stores the defaults; a
      mapping is then loaded into that store as `load` would. */
  lemma InitIsLoad(decl: Schema, order: seq<string>, form: map<string, PyValue>, parsers: TextParsers)
    requires Enumerates(order, decl)
    requires Init(decl, order, map[], parsers).Ok?
    ensures Init(decl, order, form, parsers) == Load(decl, order, Init(decl, order, map[], parsers).value, form, KeyOnly, parsers)
  {
    if |form| == 0 {
      assert form == map[];
      LoadNothing(decl, order, Init(decl, order, map[], parsers).value, form, KeyOnly, parsers);
    }
  }

  /** The number a fitting default stands for, as the setting stores it:
      an integer default of a float setting becomes a float. */
  function StoredDefault(item: SettingsItem): PyValue {
    if item.kind.FloatRange? && item.default.PyInt? then PyFloat(item.default.i as real) else item.default
  }

  /** When every default fits, `SlicerSettings()` succeeds and stores each
      declared default. */
  lemma InitStoresDefaults(decl: Schema, order: seq<string>, parsers: TextParsers)
    requires Enumerates(order, decl)
    requires forall n | n in decl :: DefaultFits(decl[n].1)
    ensures Init(decl, order, map[], parsers).Ok?
    ensures forall n | n in decl ::
      var stored := Init(decl, order, map[], parsers).value.values;
      n in stored && stored[n] == StoredDefault(decl[n].1)
  {
    forall n | n in decl
      ensures Convert(decl[n].1.kind, decl[n].1.default, parsers) == Ok(StoredDefault(decl[n].1))
    {
      DefaultConverts(decl[n].1, parsers);
    }
    var stored := Init(decl, order, map[], parsers).value.values;
    forall n | n in decl
      ensures n in stored && stored[n] == StoredDefault(decl[n].1)
    {
      assert InitialInput(decl, map[], n) == decl[n].1.default;
    }
  }

  /** For the catalogue, `SlicerSettings()` succeeds and stores each
      declared default. */
  lemma CatalogueInit(order: seq<string>, parsers: TextParsers)
    requires Enumerates(order, Declared())
    ensures Init(Declared(), order, map[], parsers).Ok?
    ensures forall n | n in Declared() ::
      var stored := Init(Declared(), order, map[], parsers).value.values;
      n in stored && stored[n] == StoredDefault(Declared()[n].1)
  {
    InitStoresDefaults(Declared(), order, parsers);
  }

  // ---------------------------------------------------------------------------
  // to_dict

  /** The first setting, in `settings_iter()` order, whose name the store
      does not hold. */
  function FirstMissing(es: seq<Entry>, s: SlicerSettings): (r: Option<nat>)
    ensures r.Some? ==> r.value < |es| && es[r.value].1.name !in s.values
                        && forall k | 0 <= k < r.value :: es[k].1.name in s.values
    ensures r.None? ==> forall k | 0 <= k < |es| :: es[k].1.name in s.values
    decreases |es|
  {
    if |es| == 0 then None
    else if es[0].1.name !in s.values then Some(0)
    else
      match FirstMissing(es[1..], s)
      case None => None
      case Some(k) => Some(k + 1)
  }

  /** The nested dictionary `to_dict` builds: `setdefault` the group's
      table, then store the setting's current value under its name. */
  function DictOf(es: seq<Entry>, s: SlicerSettings): map<string, map<string, PyValue>>
    requires forall k | 0 <= k < |es| :: es[k].1.name in s.values
    decreases |es|
  {
    if |es| == 0 then map[]
    else
      var (g, prop) := es[|es| - 1];
      var d := DictOf(es[..|es| - 1], s);
      var inner := if g in d then d[g] else map[];
      d[g := inner[prop.name := s.values[prop.name]]]
  }

  /** The nested dictionary has the groups and names of the settings
      dictionary of the same entries, and holds the store's values. */
  lemma {:induction false} DictOfMirrorsSettingsDict(es: seq<Entry>, s: SlicerSettings)
    requires forall k | 0 <= k < |es| :: es[k].1.name in s.values
    ensures DictOf(es, s).Keys == SettingsDictOf(es).Keys
    ensures forall g | g in DictOf(es, s) :: g in SettingsDictOf(es) && DictOf(es, s)[g].Keys == SettingsDictOf(es)[g].Keys
    ensures forall g, n | g in DictOf(es, s) && n in DictOf(es, s)[g] :: n in s.values && DictOf(es, s)[g][n] == s.values[n]
    decreases |es|
  {
    if |es| > 0 {
      PrefixAgrees(es);
      DictOfMirrorsSettingsDict(es[..|es| - 1], s);
    }
  }

  /** `settings.to_dict()` over the entries `es`: `KeyError` for the first
      setting the store lacks, else the nested dictionary. */
  function ToDictOf(es: seq<Entry>, s: SlicerSettings): (r: Result<map<string, map<string, PyValue>>, SettingsError>)
    ensures r.Ok? <==> forall k | 0 <= k < |es| :: es[k].1.name in s.values
    ensures r.Err? ==> exists k | 0 <= k < |es| :: es[k].1.name !in s.values && r.error == KeyError(es[k].1.name)
    ensures r.Ok? ==> && r.value.Keys == SettingsDictOf(es).Keys
                      && (forall g | g in r.value :: g in SettingsDictOf(es) && r.value[g].Keys == SettingsDictOf(es)[g].Keys)
                      && (forall g, n | g in r.value && n in r.value[g] :: n in s.values && r.value[g][n] == s.values[n])
  {
    match FirstMissing(es, s)
    case Some(k) => Err(KeyError(es[k].1.name))
    case None =>
      DictOfMirrorsSettingsDict(es, s);
      Ok(DictOf(es, s))
  }

  /** `to_dict` of a valid store over entries that are all declared
      succeeds, and every value it holds is the one `settings[name]`
      reads. */
  lemma ToDictOfValid(decl: Schema, es: seq<Entry>, s: SlicerSettings)
    requires Valid(decl, s)
    requires forall k | 0 <= k < |es| :: es[k].1.name in decl
    ensures ToDictOf(es, s).Ok?
    ensures var d := ToDictOf(es, s).value;
      forall g, n | g in d && n in d[g] :: GetItem(s, n) == Ok(d[g][n])
  {
  }

  /** `settings.to_dict()` of a valid store of the catalogue: it succeeds,
      has exactly the groups and names of `DEFAULT_SETTINGS_DICT`, and under
      each holds the value `settings[name]` reads. */
  lemma CatalogueToDict(s: SlicerSettings)
    requires Valid(Declared(), s)
    ensures ToDictOf(Entries, s).Ok?
    ensures var d := ToDictOf(Entries, s).value;
      && d.Keys == SettingsDict.Keys
      && (forall g | g in d :: g in SettingsDict && d[g].Keys == SettingsDict[g].Keys)
      && (forall g, n | g in d && n in d[g] :: GetItem(s, n) == Ok(d[g][n]))
  {
    ToDictOfValid(Declared(), Entries, s);
  }

  // ---------------------------------------------------------------------------
  // Grouped form keys

  /** No group key holds an opening square bracket. */
  predicate BracketFree(decl: Schema) {
    forall n | n in decl :: '[' !in decl[n].0
  }

  /** Bracket-free group keys make `'{group}[{key}]'` one-to-one: the first
      bracket ends the group key. */
  lemma GroupedKeyInjective(g1: string, n1: string, g2: string, n2: string)
    requires '[' !in g1 && '[' !in g2
    requires FormKey(GroupAndKey, g1, n1) == FormKey(GroupAndKey, g2, n2)
    ensures g1 == g2 && n1 == n2
  {
    FormKeyLayout(GroupAndKey, g1, n1);
    FormKeyLayout(GroupAndKey, g2, n2);
    var r := FormKey(GroupAndKey, g1, n1);
    if |g1| < |g2| {
      assert false;
    } else if |g2| < |g1| {
      assert false;
    }
  }

  /** The form a page posts for a store: each setting under
      `'{group}[{key}]'` with the store's value. */
  function GroupedForm(decl: Schema, s: SlicerSettings): (form: map<string, PyValue>)
    requires BracketFree(decl)
  {
    forall n, m | n in decl && m in decl && FormKey(GroupAndKey, decl[n].0, n) == FormKey(GroupAndKey, decl[m].0, m)
      ensures n == m
    {
      GroupedKeyInjective(decl[n].0, n, decl[m].0, m);
    }
    map n | n in decl && n in s.values :: FormKey(GroupAndKey, decl[n].0, n) := s.values[n]
  }

  /** The grouped form supplies each setting the store holds, with the
      store's value. */
  lemma GroupedFormEntry(decl: Schema, s: SlicerSettings, n: string)
    requires BracketFree(decl) && n in decl && n in s.values && s.values[n] != PyNone
    ensures FormEntry(decl, GroupedForm(decl, s), GroupAndKey, n) == Some(s.values[n])
  {
    var form := GroupedForm(decl, s);
    var fk := FormKey(GroupAndKey, decl[n].0, n);
    assert fk in form;
    forall m | m in decl && m in s.values && FormKey(GroupAndKey, decl[m].0, m) == fk
      ensures m == n
    {
      GroupedKeyInjective(decl[m].0, m, decl[n].0, n);
    }
  }

  /** Posting a valid store's grouped form and loading it into any valid
      store reproduces the first store. */
  lemma LoadGroupedForm(decl: Schema, order: seq<string>, s: SlicerSettings, t: SlicerSettings, parsers: TextParsers)
    requires Enumerates(order, decl) && BracketFree(decl)
    requires Valid(decl, s) && Valid(decl, t)
    ensures Load(decl, order, t, GroupedForm(decl, s), GroupAndKey, parsers) == Ok(s)
  {
    var form := GroupedForm(decl, s);
    forall n | n in decl
      ensures Loaded(decl, t, form, GroupAndKey, parsers, n) == Some(s.values[n])
    {
      GroupedFormEntry(decl, s, n);
      ConvertIdempotent(decl[n].1.kind, s.values[n], parsers);
    }
    var r := Load(decl, order, t, form, GroupAndKey, parsers);
    assert r.Ok?;
    LoadedDetermines(decl, t, form, GroupAndKey, parsers, r.value, s);
  }

  /** Flattening keeps the group keys of the groups. */
  lemma {:induction false} EntriesBracketFree(groups: seq<Group>)
    requires forall i | 0 <= i < |groups| :: '[' !in groups[i].key
    ensures forall k | 0 <= k < |SettingsIter(groups)| :: '[' !in SettingsIter(groups)[k].0
  {
    var es := SettingsIter(groups);
    forall k | 0 <= k < |es|
      ensures '[' !in es[k].0
    {
      var i :| 0 <= i < |groups| && es[k].0 == groups[i].key && es[k].1 in groups[i].items;
    }
  }

  /** A schema built from entries with bracket-free group keys is
      bracket-free. */
  lemma SchemaBracketFree(es: seq<Entry>)
    requires UniqueNames(es)
    requires forall k | 0 <= k < |es| :: '[' !in es[k].0
    ensures BracketFree(SchemaOf(es))
  {
    forall n | n in SchemaOf(es)
      ensures '[' !in SchemaOf(es)[n].0
    {
      assert n in NameSet(es);
      var k :| 0 <= k < |es| && es[k].1.name == n;
    }
  }

  lemma GroupKeysBracketFree()
    ensures forall i | 0 <= i < |DefaultSettings| :: '[' !in DefaultSettings[i].key
  {
    assert DefaultSettings[0].key == "Geometry";
    assert DefaultSettings[1].key == "Printer";
    assert DefaultSettings[2].key == "Infill";
    assert DefaultSettings[3].key == "Support";
    assert DefaultSettings[4].key == "G-Code";
  }

  /** The catalogue's group keys hold no bracket, so its grouped form keys
      are one-to-one. */
  lemma CatalogueBracketFree()
    ensures BracketFree(Declared())
  {
    GroupKeysBracketFree();
    EntriesBracketFree(DefaultSettings);
    CatalogueNamesUnique();
    SchemaBracketFree(Entries);
  }
}
