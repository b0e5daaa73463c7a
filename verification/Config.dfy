/**
 Collecting a config store's entries from config maps and literal values, and the sorted
 list of them that is handed to the component builder.
 */
module Config {
  import opened Base
  import opened Admission

  type Entries = map<string, string>

  /** Reading one config map: it may be missing, or the read may fail. */
  datatype Lookup = Absent | Failed | Data(entries: Entries)

  /** Collecting ends with the entries or with an error, marked on the resource or not. */
  datatype Collection = Collected(config: Entries) | NotFound | KeyMissing | ReadFailed

  /** A literal or referenced value; None when the referenced key or map is not there. */
  function ValueOf(v: Value, maps: string -> Lookup): Option<string> {
    if v.valueFrom.None? then Some(v.value)
    else
      match maps(v.valueFrom.value.name)
      case Data(entries) => if v.valueFrom.value.key in entries then Some(entries[v.valueFrom.value.key]) else None
      case Absent => None
      case Failed => None
  }

  predicate HasPrefix(key: string, prefix: string) { |prefix| <= |key| && key[..|prefix|] == prefix }

  /** What a source provides for a key: its own entry for what follows the prefix. */
  function Provided(s: ValuesFrom, maps: string -> Lookup, key: string): Option<string> {
    match maps(s.name)
    case Data(entries) =>
      if HasPrefix(key, s.prefix) && key[|s.prefix|..] in entries then Some(entries[key[|s.prefix|..]]) else None
    case Absent => None
    case Failed => None
  }

  /** The last source that provides the key. */
  function LastSource(sources: seq<ValuesFrom>, maps: string -> Lookup, key: string): Option<string> {
    if sources == [] then None
    else
      var last := Provided(sources[|sources| - 1], maps, key);
      if last.Some? then last else LastSource(sources[..|sources| - 1], maps, key)
  }

  /** The last value with the key's name, else the last source that provides it. */
  function Effective(values: seq<Value>, sources: seq<ValuesFrom>, maps: string -> Lookup, key: string): Option<string> {
    if values == [] then LastSource(sources, maps, key)
    else if values[|values| - 1].name == key then ValueOf(values[|values| - 1], maps)
    else Effective(values[..|values| - 1], sources, maps, key)
  }

  /** The map holds exactly the effective entries. */
  ghost predicate Represents(config: Entries, values: seq<Value>, sources: seq<ValuesFrom>, maps: string -> Lookup) {
    forall key: string ::
      (key in config <==> Effective(values, sources, maps, key).Some?)
      && (key in config ==> config[key] == Effective(values, sources, maps, key).value)
  }

  predicate SourcesFound(sources: seq<ValuesFrom>, maps: string -> Lookup) {
    forall i :: 0 <= i < |sources| ==> maps(sources[i].name).Data?
  }

  predicate ValuesFound(values: seq<Value>, maps: string -> Lookup) {
    forall i :: 0 <= i < |values| ==> ValueOf(values[i], maps).Some?
  }

  /** The entries with some of a source's keys laid over them under its prefix. */
  ghost predicate Overlaid(r: Entries, config: Entries, prefix: string, entries: Entries, done: set<string>)
    requires done <= entries.Keys
  {
    forall key: string ::
      if HasPrefix(key, prefix) && key[|prefix|..] in done then key in r && r[key] == entries[key[|prefix|..]]
      else (key in r <==> key in config) && (key in r ==> r[key] == config[key])
  }

  lemma OverlaidMore(r: Entries, config: Entries, prefix: string, entries: Entries, done: set<string>, k: string)
    requires done <= entries.Keys && k in entries && Overlaid(r, config, prefix, entries, done)
    ensures Overlaid(r[prefix + k := entries[k]], config, prefix, entries, done + {k})
  {
    assert (prefix + k)[|prefix|..] == k && HasPrefix(prefix + k, prefix);
    forall key | HasPrefix(key, prefix) && key[|prefix|..] == k ensures key == prefix + k {
      assert key == key[..|prefix|] + key[|prefix|..];
    }
  }

  lemma OverlaidRepresents(r: Entries, config: Entries, s: ValuesFrom, entries: Entries, maps: string -> Lookup, before: seq<ValuesFrom>)
    requires maps(s.name) == Data(entries) && Represents(config, [], before, maps)
    requires Overlaid(r, config, s.prefix, entries, entries.Keys)
    ensures Represents(r, [], before + [s], maps)
  {
    assert (before + [s])[..|before|] == before;
  }

  /** Adding one source's entries, in whatever order its map is iterated. */
  method AddSource(config: Entries, s: ValuesFrom, entries: Entries, ghost maps: string -> Lookup, ghost before: seq<ValuesFrom>)
    returns (r: Entries)
    requires maps(s.name) == Data(entries) && Represents(config, [], before, maps)
    ensures Represents(r, [], before + [s], maps)
  {
    r := config;
    var todo := entries.Keys;
    while todo != {}
      invariant todo <= entries.Keys && Overlaid(r, config, s.prefix, entries, entries.Keys - todo)
      decreases todo
    {
      var k :| k in todo;
      OverlaidMore(r, config, s.prefix, entries, entries.Keys - todo, k);
      assert entries.Keys - todo + {k} == entries.Keys - (todo - {k});
      r := r[s.prefix + k := entries[k]];
      todo := todo - {k};
    }
    assert entries.Keys - todo == entries.Keys;
    OverlaidRepresents(r, config, s, entries, maps, before);
  }

  function SourceError(l: Lookup): Collection {
    if l.Absent? then NotFound else ReadFailed
  }

  /** Why a value has no value: its config map or the key in it is not there. */
  function ValueError(v: Value, maps: string -> Lookup): Collection
    requires v.valueFrom.Some?
  {
    if maps(v.valueFrom.value.name).Data? then KeyMissing else SourceError(maps(v.valueFrom.value.name))
  }

  /** The error is that of the first source that is not found, else of the first value that is not. */
  ghost predicate FirstError(r: Collection, values: seq<Value>, sources: seq<ValuesFrom>, maps: string -> Lookup) {
    || (exists i :: 0 <= i < |sources| && SourcesFound(sources[..i], maps) && !maps(sources[i].name).Data? && r == SourceError(maps(sources[i].name)))
    || (SourcesFound(sources, maps) &&
        exists i :: 0 <= i < |values| && ValuesFound(values[..i], maps) && ValueOf(values[i], maps).None? && r == ValueError(values[i], maps))
  }

  // ---------------------------------------------------------------- what collecting promises

  /** Value i is the last one with the name. */
  predicate LastNamed(values: seq<Value>, key: string, i: nat) {
    i < |values| && values[i].name == key && forall j :: i < j < |values| ==> values[j].name != key
  }

  /** The source has an entry k that makes the key under its prefix. */
  predicate Provides(s: ValuesFrom, maps: string -> Lookup, key: string, k: string) {
    maps(s.name).Data? && k in maps(s.name).entries && key == s.prefix + k
  }

  /** Source i provides the key by its entry k, and no later source provides it. */
  ghost predicate LastProviding(sources: seq<ValuesFrom>, maps: string -> Lookup, key: string, i: nat, k: string) {
    i < |sources| && Provides(sources[i], maps, key, k) && forall j, x :: i < j < |sources| ==> !Provides(sources[j], maps, key, x)
  }

  /** The literal value, or the entry it refers to. */
  predicate Means(v: Value, maps: string -> Lookup, value: string) {
    match v.valueFrom
    case None => value == v.value
    case Some(from) => maps(from.name).Data? && from.key in maps(from.name).entries && value == maps(from.name).entries[from.key]
  }

  /** Each key has the last value of its name, else what the last source that provides it has for it; there are no other keys. */
  ghost predicate Layered(config: Entries, values: seq<Value>, sources: seq<ValuesFrom>, maps: string -> Lookup) {
    && (forall key, i: nat :: LastNamed(values, key, i) ==> key in config && Means(values[i], maps, config[key]))
    && (forall key, i: nat, k :: (forall v :: v in values ==> v.name != key) && LastProviding(sources, maps, key, i, k) ==>
          key in config && config[key] == maps(sources[i].name).entries[k])
    && (forall key :: key in config ==> (exists v :: v in values && v.name == key) || exists s, k :: s in sources && Provides(s, maps, key, k))
  }

  /** The first thing missing decides: a source or a value's map that is absent or cannot be read, or a key that is not in its map. */
  ghost predicate StoppedBy(r: Collection, values: seq<Value>, sources: seq<ValuesFrom>, maps: string -> Lookup) {
    || (exists i :: 0 <= i < |sources| && (forall j :: 0 <= j < i ==> maps(sources[j].name).Data?) && UnreadBy(r, maps(sources[i].name)))
    || ((forall j :: 0 <= j < |sources| ==> maps(sources[j].name).Data?)
        && exists i :: 0 <= i < |values| && (forall j :: 0 <= j < i ==> Meaningful(values[j], maps)) && MissingFor(r, values[i], maps))
  }

  ghost predicate Meaningful(v: Value, maps: string -> Lookup) { exists value :: Means(v, maps, value) }

  predicate MissingFor(r: Collection, v: Value, maps: string -> Lookup) {
    match v.valueFrom
    case None => false
    case Some(from) =>
      || UnreadBy(r, maps(from.name))
      || (maps(from.name).Data? && from.key !in maps(from.name).entries && r == KeyMissing)
  }

  predicate UnreadBy(r: Collection, l: Lookup) {
    (l.Absent? && r == NotFound) || (l.Failed? && r == ReadFailed)
  }

  lemma {:induction false} EffectiveNamed(values: seq<Value>, sources: seq<ValuesFrom>, maps: string -> Lookup, key: string, i: nat)
    requires LastNamed(values, key, i)
    ensures Effective(values, sources, maps, key) == ValueOf(values[i], maps)
    decreases |values|
  {
    if i < |values| - 1 {
      var init := values[..|values| - 1];
      assert values[|values| - 1].name != key;
      assert LastNamed(init, key, i);
      EffectiveNamed(init, sources, maps, key, i);
    }
  }

  lemma {:induction false} EffectiveUnnamed(values: seq<Value>, sources: seq<ValuesFrom>, maps: string -> Lookup, key: string)
    requires forall v :: v in values ==> v.name != key
    ensures Effective(values, sources, maps, key) == LastSource(sources, maps, key)
    decreases |values|
  {
    if values != [] {
      var init := values[..|values| - 1];
      assert values[|values| - 1] in values && forall v :: v in init ==> v in values;
      EffectiveUnnamed(init, sources, maps, key);
    }
  }

  /** A key under a prefix is the prefix and what follows it. */
  lemma ProvidedExactly(s: ValuesFrom, maps: string -> Lookup, key: string)
    ensures Provided(s, maps, key).None? <==> forall k :: !Provides(s, maps, key, k)
    ensures forall k :: Provides(s, maps, key, k) ==> Provided(s, maps, key) == Some(maps(s.name).entries[k])
  {
    forall k | Provides(s, maps, key, k) ensures Provided(s, maps, key) == Some(maps(s.name).entries[k]) {
      assert HasPrefix(key, s.prefix) && key[|s.prefix|..] == k;
    }
    if Provided(s, maps, key).Some? {
      assert key == s.prefix + key[|s.prefix|..];
      assert Provides(s, maps, key, key[|s.prefix|..]);
    }
  }

  lemma {:induction false} LastSourceProvides(sources: seq<ValuesFrom>, maps: string -> Lookup, key: string, i: nat, k: string)
    requires LastProviding(sources, maps, key, i, k)
    ensures LastSource(sources, maps, key) == Some(maps(sources[i].name).entries[k])
    decreases |sources|
  {
    var init, last := sources[..|sources| - 1], sources[|sources| - 1];
    ProvidedExactly(last, maps, key);
    if i < |init| {
      assert forall x :: !Provides(sources[|init|], maps, key, x);
      assert LastProviding(init, maps, key, i, k) by {
        assert forall j :: 0 <= j < |init| ==> init[j] == sources[j];
      }
      LastSourceProvides(init, maps, key, i, k);
    }
  }

  lemma {:induction false} LastSourceIsOne(sources: seq<ValuesFrom>, maps: string -> Lookup, key: string)
    requires LastSource(sources, maps, key).Some?
    ensures exists s, k :: s in sources && Provides(s, maps, key, k)
    decreases |sources|
  {
    var init, last := sources[..|sources| - 1], sources[|sources| - 1];
    ProvidedExactly(last, maps, key);
    if Provided(last, maps, key).Some? {
      var k :| Provides(last, maps, key, k);
      assert last in sources;
    } else {
      LastSourceIsOne(init, maps, key);
      var s, k :| s in init && Provides(s, maps, key, k);
      assert s in sources;
    }
  }

  lemma RepresentsLayered(config: Entries, values: seq<Value>, sources: seq<ValuesFrom>, maps: string -> Lookup)
    requires Represents(config, values, sources, maps) && ValuesFound(values, maps)
    ensures Layered(config, values, sources, maps)
  {
    forall key, i: nat | LastNamed(values, key, i) ensures key in config && Means(values[i], maps, config[key]) {
      EffectiveNamed(values, sources, maps, key, i);
    }
    forall key, i: nat, k | (forall v :: v in values ==> v.name != key) && LastProviding(sources, maps, key, i, k)
      ensures key in config && config[key] == maps(sources[i].name).entries[k]
    {
      EffectiveUnnamed(values, sources, maps, key);
      LastSourceProvides(sources, maps, key, i, k);
    }
    forall key | key in config
      ensures (exists v :: v in values && v.name == key) || exists s, k :: s in sources && Provides(s, maps, key, k)
    {
      if forall v :: v in values ==> v.name != key {
        EffectiveUnnamed(values, sources, maps, key);
        LastSourceIsOne(sources, maps, key);
      }
    }
  }

  lemma FirstErrorStops(r: Collection, values: seq<Value>, sources: seq<ValuesFrom>, maps: string -> Lookup)
    requires FirstError(r, values, sources, maps)
    ensures StoppedBy(r, values, sources, maps)
  {
    if i :| 0 <= i < |sources| && SourcesFound(sources[..i], maps) && !maps(sources[i].name).Data? && r == SourceError(maps(sources[i].name)) {
      forall j | 0 <= j < i ensures maps(sources[j].name).Data? {
        assert sources[..i][j] == sources[j];
      }
      assert UnreadBy(r, maps(sources[i].name));
    } else {
      var i :| 0 <= i < |values| && ValuesFound(values[..i], maps) && ValueOf(values[i], maps).None? && r == ValueError(values[i], maps);
      forall j | 0 <= j < i ensures Meaningful(values[j], maps) {
        assert values[..i][j] == values[j];
        assert Means(values[j], maps, ValueOf(values[j], maps).value);
      }
      assert MissingFor(r, values[i], maps);
    }
  }

  /** `CollectConfig`. */
  method CollectConfig(values: seq<Value>, sources: seq<ValuesFrom>, maps: string -> Lookup) returns (r: Collection)
    ensures r.Collected? <==> SourcesFound(sources, maps) && ValuesFound(values, maps)
    ensures r.Collected? ==> Represents(r.config, values, sources, maps)
    ensures !r.Collected? ==> FirstError(r, values, sources, maps)
    ensures if r.Collected? then Layered(r.config, values, sources, maps) else StoppedBy(r, values, sources, maps)
  {
    r := CollectEntries(values, sources, maps);
    if r.Collected? {
      RepresentsLayered(r.config, values, sources, maps);
    } else {
      FirstErrorStops(r, values, sources, maps);
    }
  }

  /** The two loops, over the sources and then over the values. */
  method CollectEntries(values: seq<Value>, sources: seq<ValuesFrom>, maps: string -> Lookup) returns (r: Collection)
    ensures r.Collected? <==> SourcesFound(sources, maps) && ValuesFound(values, maps)
    ensures r.Collected? ==> Represents(r.config, values, sources, maps)
    ensures !r.Collected? ==> FirstError(r, values, sources, maps)
  {
    var config: Entries := map[];
    for i := 0 to |sources|
      invariant SourcesFound(sources[..i], maps)
      invariant Represents(config, [], sources[..i], maps)
    {
      assert sources[..i + 1] == sources[..i] + [sources[i]];
      match maps(sources[i].name) {
        case Absent => return NotFound;
        case Failed => return ReadFailed;
        case Data(entries) =>
          config := AddSource(config, sources[i], entries, maps, sources[..i]);
      }
    }
    assert sources[..|sources|] == sources;
    for i := 0 to |values|
      invariant ValuesFound(values[..i], maps)
      invariant Represents(config, values[..i], sources, maps)
    {
      var v := values[i];
      assert values[..i + 1][..i] == values[..i];
      if v.valueFrom.Some? {
        match maps(v.valueFrom.value.name) {
          case Absent => return NotFound;
          case Failed => return ReadFailed;
          case Data(entries) =>
            if v.valueFrom.value.key in entries {
              config := config[v.name := entries[v.valueFrom.value.key]];
            } else {
              return KeyMissing;
            }
        }
      } else {
        config := config[v.name := v.value];
      }
    }
    assert values[..|values|] == values;
    r := Collected(config);
  }

  /** Any two collections agree: iteration order leaves no trace in the entries. */
  lemma RepresentationUnique(a: Entries, b: Entries, values: seq<Value>, sources: seq<ValuesFrom>, maps: string -> Lookup)
    requires Represents(a, values, sources, maps) && Represents(b, values, sources, maps)
    ensures a == b
  {
    forall key: string ensures key in a <==> key in b {
      assert key in a <==> Effective(values, sources, maps, key).Some?;
    }
    assert a.Keys == b.Keys;
  }

  // ---------------------------------------------------------------- the sorted list

  /** Byte-wise string order. */
  predicate Less(a: string, b: string) {
    b != [] && (a == [] || a[0] < b[0] || (a[0] == b[0] && Less(a[1..], b[1..])))
  }

  /** The first place where the strings differ decides, or the end of the shorter one. */
  lemma {:induction false} LessMeans(a: string, b: string)
    ensures Less(a, b) <==>
              exists k :: 0 <= k <= |a| && k < |b| && a[..k] == b[..k] && (k == |a| || a[k] < b[k])
  {
    if a != [] && b != [] && a[0] == b[0] {
      LessMeans(a[1..], b[1..]);
      if k :| 0 <= k <= |a| && k < |b| && a[..k] == b[..k] && (k == |a| || a[k] < b[k]) {
        assert k > 0 && a[1..][..k - 1] == a[..k][1..] && b[1..][..k - 1] == b[..k][1..];
      }
      if k :| 0 <= k <= |a[1..]| && k < |b[1..]| && a[1..][..k] == b[1..][..k] && (k == |a[1..]| || a[1..][k] < b[1..][k]) {
        assert a[..k + 1] == [a[0]] + a[1..][..k] && b[..k + 1] == [b[0]] + b[1..][..k];
      }
    } else if b != [] && (a == [] || a[0] < b[0]) {
      assert a[..0] == b[..0];
    }
  }

  lemma {:induction false} LessTotal(a: string, b: string)
    ensures a == b || Less(a, b) || Less(b, a)
    ensures !(Less(a, b) && (a == b || Less(b, a)))
  {
    if a != [] && b != [] {
      LessTotal(a[1..], b[1..]);
      assert a == [a[0]] + a[1..] && b == [b[0]] + b[1..];
    }
  }

  lemma {:induction false} LessTransitive(a: string, b: string, c: string)
    requires Less(a, b) && Less(b, c)
    ensures Less(a, c)
  {
    if a != [] && a[0] == b[0] && b[0] == c[0] {
      LessTransitive(a[1..], b[1..], c[1..]);
    }
  }

  type Pair = (string, string)

  predicate Sorted(c: seq<Pair>) {
    forall i, j :: 0 <= i < j < |c| ==> Less(c[i].0, c[j].0)
  }

  /** The list holds exactly the entries of the map. */
  ghost predicate Lists(c: seq<Pair>, config: Entries) {
    forall p :: p in c <==> p.0 in config && config[p.0] == p.1
  }

  predicate Unrepeated(c: seq<Pair>) {
    forall i, j :: 0 <= i < j < |c| ==> c[i].0 != c[j].0
  }

  /** `ComponentizeConfigStore` up to the call of the builder: append in any order, then sort in place. */
  method SortedEntries(config: Entries) returns (c: seq<Pair>)
    ensures Sorted(c) && Lists(c, config)
  {
    c := [];
    var todo := config.Keys;
    while todo != {}
      invariant todo <= config.Keys
      invariant Unrepeated(c)
      invariant forall p :: p in c <==> p.0 in config.Keys - todo && config[p.0] == p.1
      decreases todo
    {
      var k :| k in todo;
      assert forall i :: 0 <= i < |c| ==> c[i] in c;
      c := c + [(k, config[k])];
      todo := todo - {k};
    }
    c := SortByKey(c);
  }

  method SortByKey(unsorted: seq<Pair>) returns (c: seq<Pair>)
    requires Unrepeated(unsorted)
    ensures Sorted(c) && forall p :: p in c <==> p in unsorted
  {
    c := unsorted;
    for i := 0 to |unsorted|
      invariant |c| == |unsorted| && Sorted(c[..i]) && Unrepeated(c)
      invariant forall p :: p in c <==> p in unsorted
    {
      c := SinkInto(c, i);
    }
    assert c[..|c|] == c;
  }

  /** Moves element i down to its place among the sorted ones before it, one swap at a time. */
  method SinkInto(start: seq<Pair>, i: nat) returns (c: seq<Pair>)
    requires i < |start| && Sorted(start[..i]) && Unrepeated(start)
    ensures |c| == |start| && Sorted(c[..i + 1]) && Unrepeated(c)
    ensures forall p :: p in c <==> p in start
  {
    c := start;
    var j := i;
    LessTotal(c[j].0, c[j].0);
    while j > 0 && Less(c[j].0, c[j - 1].0)
      invariant j <= i < |c| == |start|
      invariant Unrepeated(c)
      invariant forall p :: p in c <==> p in start
      invariant forall x, y :: 0 <= x < y <= i && y != j ==> Less(c[x].0, c[y].0) || x == j
      invariant forall y :: j < y <= i ==> Less(c[j].0, c[y].0)
      decreases j
    {
      ghost var prior := c;
      c := c[j := c[j - 1]][j - 1 := c[j]];
      SwapKeeps(prior, j, c);
      j := j - 1;
    }
    if j > 0 {
      LessTotal(c[j].0, c[j - 1].0);
      forall x | 0 <= x < j ensures Less(c[x].0, c[j].0) {
        if x < j - 1 {
          LessTransitive(c[x].0, c[j - 1].0, c[j].0);
        }
      }
    }
  }

  lemma SwapKeeps(a: seq<Pair>, j: nat, b: seq<Pair>)
    requires 0 < j < |a| && b == a[j := a[j - 1]][j - 1 := a[j]]
    ensures forall p :: p in b <==> p in a
    ensures Unrepeated(a) ==> Unrepeated(b)
  {
    forall p | p in a ensures p in b {
      var k :| 0 <= k < |a| && a[k] == p;
      assert p == if k == j then b[j - 1] else if k == j - 1 then b[j] else b[k];
    }
    forall p | p in b ensures p in a {
      var k :| 0 <= k < |b| && b[k] == p;
      assert p == if k == j then a[j - 1] else if k == j - 1 then a[j] else a[k];
    }
  }

  /** There is only one sorted list of the entries of a map. */
  lemma {:induction false} SortedUnique(a: seq<Pair>, b: seq<Pair>)
    requires Sorted(a) && Sorted(b) && forall p :: p in a <==> p in b
    ensures a == b
    decreases |a|
  {
    if a == [] {
      assert forall i :: 0 <= i < |b| ==> b[i] in b;
    } else {
      assert a[0] in b && a[0] in a;
      var j :| 0 <= j < |b| && b[j] == a[0];
      assert b[0] in a;
      var i :| 0 <= i < |a| && a[i] == b[0];
      LessTotal(a[0].0, b[0].0);
      LessTotal(b[0].0, a[0].0);
      assert a[0] == b[0];
      forall p ensures p in a[1..] <==> p in b[1..] {
        RestMembers(a, p);
        RestMembers(b, p);
      }
      SortedUnique(a[1..], b[1..]);
      assert a == [a[0]] + a[1..] && b == [b[0]] + b[1..];
    }
  }

  lemma RestMembers(a: seq<Pair>, p: Pair)
    requires a != [] && Sorted(a)
    ensures p in a[1..] <==> p in a && p != a[0]
  {
    LessTotal(a[0].0, a[0].0);
    if p in a[1..] {
      var i :| 0 <= i < |a[1..]| && a[1..][i] == p;
      assert a[i + 1] == p && Less(a[0].0, a[i + 1].0);
    }
    if p in a && p != a[0] {
      var i :| 0 <= i < |a| && a[i] == p;
      assert a[1..][i - 1] == p;
    }
  }

  /**
   Canonicity: for any iteration orders, collections that represent the same spec give
   the builder the same list.
   */
  lemma CanonicalList(a: Entries, b: Entries, values: seq<Value>, sources: seq<ValuesFrom>, maps: string -> Lookup, x: seq<Pair>, y: seq<Pair>)
    requires Represents(a, values, sources, maps) && Represents(b, values, sources, maps)
    requires Sorted(x) && Lists(x, a) && Sorted(y) && Lists(y, b)
    ensures x == y
    ensures forall key, value :: (key, value) in x <==> Effective(values, sources, maps, key) == Some(value)
  {
    RepresentationUnique(a, b, values, sources, maps);
    SortedUnique(x, y);
    forall key, value ensures (key, value) in x <==> Effective(values, sources, maps, key) == Some(value) {
      assert (key, value) in x <==> (key, value).0 in a && a[(key, value).0] == (key, value).1;
    }
  }
}
