/**
 The build script that generates the unit registry (`UNITS` in the crate):
 every base unit is entered once without a prefix and once per SI prefix, its
 prefixed scale being `base_scale * prefix_scale^pow`; the additional units
 are then entered as they are, without prefixes. Lookup is `UNITS.get`.
 */
module Build {
  import opened Options
  import opened Powers
  import Dimensions
  import opened Units

  /** A row of the build script's unit tables. */
  datatype UnitDef = UnitDef(symbol: string, dimension: Dimensions.Dimension, scale: real, pow: nat)

  /** A row of the build script's prefix table. */
  datatype Prefix = Prefix(symbol: string, scale: real)

  /** One `unit_map.entry(key, value)` call of the build script. */
  datatype Entry = Entry(key: string, unit: Unit)

  type Map = map<string, Unit>

  const UNITS: seq<UnitDef> := [
    UnitDef("m", Dimensions.LENGTH, 1.0, 1),      // metre
    UnitDef("g", Dimensions.MASS, 0.001, 1),      // gram
    UnitDef("t", Dimensions.MASS, 1000.0, 1),     // tonne
    UnitDef("m2", Dimensions.AREA, 1.0, 2),       // square metre
    UnitDef("m3", Dimensions.VOLUME, 1.0, 3),     // cubic metre
    UnitDef("Sm3", Dimensions.VOLUME, 1.0, 3),    // standard cubic metre
    UnitDef("l", Dimensions.VOLUME, 0.001, 3),    // litre
    UnitDef("L", Dimensions.VOLUME, 0.001, 3),    // litre
    UnitDef("J", Dimensions.ENERGY, 1.0, 1),      // joule
    UnitDef("Wh", Dimensions.ENERGY, 3600.0, 1)   // watt hour
  ]

  /** Units entered without prefixes; their `pow` is never read. */
  const ADDITIONAL_UNITS: seq<UnitDef> := [
    UnitDef("s", Dimensions.TIME, 1.0, 1),
    UnitDef("min", Dimensions.TIME, 60.0, 1),
    UnitDef("h", Dimensions.TIME, 3600.0, 1),
    UnitDef("hour", Dimensions.TIME, 3600.0, 1),
    UnitDef("d", Dimensions.TIME, 86400.0, 1),
    UnitDef("day", Dimensions.TIME, 86400.0, 1),
    UnitDef("y", Dimensions.TIME, 31556952.0, 1),
    UnitDef("year", Dimensions.TIME, 31556952.0, 1),
    UnitDef("yr", Dimensions.TIME, 31556952.0, 1),
    UnitDef("ha", Dimensions.AREA, 10000.0, 2)
  ]

  const PREFIXES: seq<Prefix> := [
    Prefix("n", 0.000000001),
    Prefix("\U{00C2}\U{00B5}", 0.000001),   // micro, as the two characters the table's literal holds
    Prefix("m", 0.001),
    Prefix("c", 0.01),
    Prefix("d", 0.1),
    Prefix("da", 10.0),
    Prefix("h", 100.0),
    Prefix("k", 1000.0),
    Prefix("M", 1000000.0),
    Prefix("G", 1000000000.0)
  ]

  /** The entry of a unit under its own symbol, with its own dimension and scale. */
  function PlainEntry(u: UnitDef): Entry {
    Entry(u.symbol, Unit(u.dimension, u.scale))
  }

  /** The key of a prefixed unit: the prefix symbol followed by the unit symbol. */
  function PrefixedKey(p: Prefix, u: UnitDef): string {
    p.symbol + u.symbol
  }

  /** The entry of a prefixed unit, with scale `scale * prefix^pow`. */
  function PrefixedEntry(p: Prefix, u: UnitDef): Entry {
    Entry(PrefixedKey(p, u), Unit(u.dimension, u.scale * NatPow(p.scale, u.pow)))
  }

  /** The entries the inner loop over the prefixes emits for one base unit. */
  function UnitEntries(u: UnitDef, ps: seq<Prefix>): seq<Entry> {
    [PlainEntry(u)] + seq(|ps|, i requires 0 <= i < |ps| => PrefixedEntry(ps[i], u))
  }

  /** The entries of the outer loop over the base units. */
  function BaseEntries(us: seq<UnitDef>, ps: seq<Prefix>): seq<Entry> {
    if |us| == 0 then [] else UnitEntries(us[0], ps) + BaseEntries(us[1..], ps)
  }

  /** The entries of the loop over the additional units. */
  function AdditionalEntries(adds: seq<UnitDef>): seq<Entry> {
    seq(|adds|, i requires 0 <= i < |adds| => PlainEntry(adds[i]))
  }

  /** Every `entry` call of the build script, in order. */
  function Entries(us: seq<UnitDef>, ps: seq<Prefix>, adds: seq<UnitDef>): seq<Entry> {
    BaseEntries(us, ps) + AdditionalEntries(adds)
  }

  predicate DistinctKeys(es: seq<Entry>) {
    forall a, b | 0 <= a < b < |es| :: es[a].key != es[b].key
  }

  /** The map that results from inserting the entries in order. */
  function Insert(es: seq<Entry>): Map {
    if |es| == 0 then map[] else Insert(es[..|es| - 1])[es[|es| - 1].key := es[|es| - 1].unit]
  }

  /**
   The generated map. The map generator rejects a repeated key at build time,
   which is the `None` case here.
   */
  function BuildRegistry(us: seq<UnitDef>, ps: seq<Prefix>, adds: seq<UnitDef>): Option<Map> {
    var es := Entries(us, ps, adds);
    if DistinctKeys(es) then Some(Insert(es)) else None
  }

  /** `UNITS.get(symbol)` on a given map. */
  function Get(reg: Map, symbol: string): Option<Unit> {
    if symbol in reg then Some(reg[symbol]) else None
  }

  /** The registry invariant: every unit has a positive scale. */
  predicate PositiveScales(reg: Map) {
    forall k | k in reg :: reg[k].scale > 0.0
  }

  // ---------------------------------------------------------------------------
  // Inserting entries

  lemma {:induction false} InsertKeys(es: seq<Entry>)
    ensures forall i | 0 <= i < |es| :: es[i].key in Insert(es)
    ensures forall k | k in Insert(es) :: exists i :: 0 <= i < |es| && es[i].key == k
  {
    if |es| > 0 {
      var init := es[..|es| - 1];
      InsertKeys(init);
      forall i | 0 <= i < |es| - 1
        ensures es[i].key in Insert(es)
      {
        assert es[i] == init[i];
      }
      forall k | k in Insert(es)
        ensures exists i :: 0 <= i < |es| && es[i].key == k
      {
        if k != es[|es| - 1].key {
          var i :| 0 <= i < |init| && init[i].key == k;
          assert es[i] == init[i];
        }
      }
    }
  }

  lemma {:induction false} InsertValues(es: seq<Entry>)
    requires DistinctKeys(es)
    ensures forall i | 0 <= i < |es| :: es[i].key in Insert(es) && Insert(es)[es[i].key] == es[i].unit
  {
    if |es| > 0 {
      var init := es[..|es| - 1];
      assert DistinctKeys(init) by {
        forall a, b | 0 <= a < b < |init|
          ensures init[a].key != init[b].key
        {
          assert init[a] == es[a] && init[b] == es[b];
        }
      }
      InsertValues(init);
      InsertKeys(init);
      forall i | 0 <= i < |es| - 1
        ensures es[i].key in Insert(es) && Insert(es)[es[i].key] == es[i].unit
      {
        assert es[i] == init[i];
        assert es[i].key != es[|es| - 1].key;
      }
    }
  }

  lemma {:induction false} InsertSize(es: seq<Entry>)
    requires DistinctKeys(es)
    ensures |Insert(es)| == |es|
  {
    if |es| > 0 {
      var init := es[..|es| - 1];
      assert DistinctKeys(init) by {
        forall a, b | 0 <= a < b < |init|
          ensures init[a].key != init[b].key
        {
          assert init[a] == es[a] && init[b] == es[b];
        }
      }
      InsertSize(init);
      InsertKeys(init);
      var last := es[|es| - 1];
      if last.key in Insert(init) {
        assert false;
      }
    }
  }

  // ---------------------------------------------------------------------------
  // The shape of the emitted entries

  lemma {:induction false} BaseEntriesSize(us: seq<UnitDef>, ps: seq<Prefix>)
    ensures |BaseEntries(us, ps)| == |us| * (|ps| + 1)
  {
    if |us| > 0 {
      BaseEntriesSize(us[1..], ps);
      assert |us| * (|ps| + 1) == (|ps| + 1) + (|us| - 1) * (|ps| + 1);
    }
  }

  /** Each base unit is emitted without a prefix. */
  lemma {:induction false} BaseEntriesContainPlain(us: seq<UnitDef>, ps: seq<Prefix>, u: UnitDef)
    requires u in us
    ensures PlainEntry(u) in BaseEntries(us, ps)
  {
    if us[0] == u {
      assert BaseEntries(us, ps)[0] == PlainEntry(u);
    } else {
      assert u in us[1..];
      BaseEntriesContainPlain(us[1..], ps, u);
    }
  }

  /** Each base unit is emitted under every prefix. */
  lemma {:induction false} BaseEntriesContainPrefixed(us: seq<UnitDef>, ps: seq<Prefix>, p: Prefix, u: UnitDef)
    requires p in ps && u in us
    ensures PrefixedEntry(p, u) in BaseEntries(us, ps)
  {
    if us[0] == u {
      var i :| 0 <= i < |ps| && ps[i] == p;
      assert UnitEntries(u, ps)[1 + i] == PrefixedEntry(p, u);
      assert BaseEntries(us, ps)[1 + i] == PrefixedEntry(p, u);
    } else {
      assert u in us[1..];
      BaseEntriesContainPrefixed(us[1..], ps, p, u);
    }
  }

  /** `e` is one of the entries emitted for base unit `u`. */
  predicate FromUnit(e: Entry, u: UnitDef, ps: seq<Prefix>) {
    e == PlainEntry(u) || exists p | p in ps :: e == PrefixedEntry(p, u)
  }

  lemma UnitEntriesFrom(u: UnitDef, ps: seq<Prefix>, e: Entry)
    requires e in UnitEntries(u, ps)
    ensures FromUnit(e, u, ps)
  {
    if e != PlainEntry(u) {
      var j :| 0 <= j < |UnitEntries(u, ps)| && UnitEntries(u, ps)[j] == e;
      assert e == PrefixedEntry(ps[j - 1], u);
      assert ps[j - 1] in ps;
    }
  }

  /** Nothing else is emitted by the base-unit loops. */
  lemma {:induction false} BaseEntriesOrigin(us: seq<UnitDef>, ps: seq<Prefix>, e: Entry)
    requires e in BaseEntries(us, ps)
    ensures exists u | u in us :: FromUnit(e, u, ps)
  {
    if e in UnitEntries(us[0], ps) {
      UnitEntriesFrom(us[0], ps, e);
    } else {
      BaseEntriesOrigin(us[1..], ps, e);
      var w :| w in us[1..] && FromUnit(e, w, ps);
      assert w in us;
    }
  }

  // ---------------------------------------------------------------------------
  // When the tables produce no repeated key

  predicate DistinctSymbols(us: seq<UnitDef>) {
    forall a, b | 0 <= a < b < |us| :: us[a].symbol != us[b].symbol
  }

  predicate DistinctPrefixes(ps: seq<Prefix>) {
    forall a, b | 0 <= a < b < |ps| :: ps[a].symbol != ps[b].symbol
  }

  /**
   The tables never name one key twice: symbols are distinct within each
   table and between the two unit tables, no prefixed symbol is also a plain
   symbol, and two prefixed symbols can only agree when their base symbols do.
   */
  predicate Unambiguous(us: seq<UnitDef>, ps: seq<Prefix>, adds: seq<UnitDef>) {
    && DistinctSymbols(us)
    && DistinctSymbols(adds)
    && DistinctPrefixes(ps)
    && (forall u, w | u in us && w in adds :: u.symbol != w.symbol)
    && (forall p, u, w | p in ps && u in us && w in us + adds :: PrefixedKey(p, u) != w.symbol)
    && (forall p, q, u, w | p in ps && q in ps && u in us && w in us && PrefixedKey(p, u) == PrefixedKey(q, w)
          :: u.symbol == w.symbol)
  }

  lemma ConcatDistinct(xs: seq<Entry>, ys: seq<Entry>)
    requires DistinctKeys(xs) && DistinctKeys(ys)
    requires forall x, y | x in xs && y in ys :: x.key != y.key
    ensures DistinctKeys(xs + ys)
  {
    var zs := xs + ys;
    forall a, b | 0 <= a < b < |zs|
      ensures zs[a].key != zs[b].key
    {
      if b < |xs| {
        assert zs[a] == xs[a] && zs[b] == xs[b];
      } else if a < |xs| {
        assert zs[a] in xs && zs[b] in ys;
      } else {
        assert zs[a] == ys[a - |xs|] && zs[b] == ys[b - |xs|];
      }
    }
  }

  lemma SuffixCancel(p: string, q: string, u: string)
    requires p + u == q + u
    ensures p == q
  {
    assert |p| == |q|;
    assert p == (p + u)[..|p|];
    assert q == (q + u)[..|q|];
  }

  lemma UnitEntriesDistinct(u: UnitDef, us: seq<UnitDef>, ps: seq<Prefix>, adds: seq<UnitDef>)
    requires Unambiguous(us, ps, adds) && u in us
    ensures DistinctKeys(UnitEntries(u, ps))
  {
    var es := UnitEntries(u, ps);
    forall a, b | 0 <= a < b < |es|
      ensures es[a].key != es[b].key
    {
      assert es[b] == PrefixedEntry(ps[b - 1], u);
      assert ps[b - 1] in ps;
      if a > 0 {
        assert es[a] == PrefixedEntry(ps[a - 1], u);
        if PrefixedKey(ps[a - 1], u) == PrefixedKey(ps[b - 1], u) {
          SuffixCancel(ps[a - 1].symbol, ps[b - 1].symbol, u.symbol);
        }
      }
    }
  }

  lemma UnambiguousTail(us: seq<UnitDef>, ps: seq<Prefix>, adds: seq<UnitDef>)
    requires Unambiguous(us, ps, adds) && |us| > 0
    ensures Unambiguous(us[1..], ps, adds)
    ensures forall w | w in us[1..] :: w in us && w.symbol != us[0].symbol
  {
    var tl := us[1..];
    forall a, b | 0 <= a < b < |tl|
      ensures tl[a].symbol != tl[b].symbol
    {
      assert tl[a] == us[a + 1] && tl[b] == us[b + 1];
    }
    forall w | w in tl
      ensures w in us && w.symbol != us[0].symbol
    {
      var j :| 0 <= j < |tl| && tl[j] == w;
      assert us[j + 1] == w;
    }
  }

  /** Entries of two base units with different symbols never share a key. */
  lemma FromUnitsApart(us: seq<UnitDef>, ps: seq<Prefix>, adds: seq<UnitDef>, u: UnitDef, w: UnitDef, x: Entry, y: Entry)
    requires Unambiguous(us, ps, adds) && u in us && w in us && u.symbol != w.symbol
    requires FromUnit(x, u, ps) && FromUnit(y, w, ps)
    ensures x.key != y.key
  {
    assert w in us + adds && u in us + adds;
    if x != PlainEntry(u) {
      var p :| p in ps && x == PrefixedEntry(p, u);
      if y != PlainEntry(w) {
        var q :| q in ps && y == PrefixedEntry(q, w);
      }
    }
  }

  /** Entries of a base unit never share a key with an additional unit. */
  lemma FromUnitApartFromAdditional(us: seq<UnitDef>, ps: seq<Prefix>, adds: seq<UnitDef>, u: UnitDef, a: UnitDef, x: Entry)
    requires Unambiguous(us, ps, adds) && u in us && a in adds
    requires FromUnit(x, u, ps)
    ensures x.key != a.symbol
  {
    assert a in us + adds;
  }

  lemma {:induction false} BaseEntriesDistinct(us: seq<UnitDef>, ps: seq<Prefix>, adds: seq<UnitDef>)
    requires Unambiguous(us, ps, adds)
    ensures DistinctKeys(BaseEntries(us, ps))
  {
    if |us| > 0 {
      var u := us[0];
      UnitEntriesDistinct(u, us, ps, adds);
      UnambiguousTail(us, ps, adds);
      BaseEntriesDistinct(us[1..], ps, adds);
      forall x, y | x in UnitEntries(u, ps) && y in BaseEntries(us[1..], ps)
        ensures x.key != y.key
      {
        UnitEntriesFrom(u, ps, x);
        BaseEntriesOrigin(us[1..], ps, y);
        var w :| w in us[1..] && FromUnit(y, w, ps);
        FromUnitsApart(us, ps, adds, u, w, x, y);
      }
      ConcatDistinct(UnitEntries(u, ps), BaseEntries(us[1..], ps));
    }
  }

  lemma AdditionalEntriesDistinct(adds: seq<UnitDef>)
    requires DistinctSymbols(adds)
    ensures DistinctKeys(AdditionalEntries(adds))
  {
  }

  lemma EntriesDistinct(us: seq<UnitDef>, ps: seq<Prefix>, adds: seq<UnitDef>)
    requires Unambiguous(us, ps, adds)
    ensures DistinctKeys(Entries(us, ps, adds))
  {
    BaseEntriesDistinct(us, ps, adds);
    var xs := AdditionalEntries(adds);
    AdditionalEntriesDistinct(adds);
    forall x, y | x in BaseEntries(us, ps) && y in xs
      ensures x.key != y.key
    {
      BaseEntriesOrigin(us, ps, x);
      var u :| u in us && FromUnit(x, u, ps);
      var j :| 0 <= j < |xs| && xs[j] == y;
      FromUnitApartFromAdditional(us, ps, adds, u, adds[j], x);
    }
    ConcatDistinct(BaseEntries(us, ps), xs);
  }

  // ---------------------------------------------------------------------------
  // What the built map holds

  /** For unambiguous tables the build succeeds with one key per `entry` call. */
  lemma BuildRegistrySucceeds(us: seq<UnitDef>, ps: seq<Prefix>, adds: seq<UnitDef>)
    requires Unambiguous(us, ps, adds)
    ensures BuildRegistry(us, ps, adds) == Some(Insert(Entries(us, ps, adds)))
    ensures |BuildRegistry(us, ps, adds).value| == |us| * (|ps| + 1) + |adds|
  {
    EntriesDistinct(us, ps, adds);
    InsertSize(Entries(us, ps, adds));
    BaseEntriesSize(us, ps);
  }

  lemma BaseEntriesAreEntries(us: seq<UnitDef>, ps: seq<Prefix>, adds: seq<UnitDef>, e: Entry)
    requires e in BaseEntries(us, ps)
    ensures e in Entries(us, ps, adds)
  {
  }

  /** Every emitted entry is in the map under its key, with its unit. */
  lemma EmittedEntryFound(us: seq<UnitDef>, ps: seq<Prefix>, adds: seq<UnitDef>, e: Entry)
    requires Unambiguous(us, ps, adds) && e in Entries(us, ps, adds)
    ensures BuildRegistry(us, ps, adds).Some?
    ensures Get(BuildRegistry(us, ps, adds).value, e.key) == Some(e.unit)
  {
    var es := Entries(us, ps, adds);
    BuildRegistrySucceeds(us, ps, adds);
    InsertValues(es);
    var i :| 0 <= i < |es| && es[i] == e;
  }

  /** The map holds every base symbol with its table scale. */
  lemma BuildRegistryHasBase(us: seq<UnitDef>, ps: seq<Prefix>, adds: seq<UnitDef>, u: UnitDef)
    requires Unambiguous(us, ps, adds) && u in us
    ensures BuildRegistry(us, ps, adds).Some?
    ensures Get(BuildRegistry(us, ps, adds).value, u.symbol) == Some(Unit(u.dimension, u.scale))
  {
    BaseEntriesContainPlain(us, ps, u);
    EmittedEntryFound(us, ps, adds, PlainEntry(u));
  }

  /** The map holds every prefixed base symbol with scale `scale * prefix^pow`. */
  lemma BuildRegistryHasPrefixed(us: seq<UnitDef>, ps: seq<Prefix>, adds: seq<UnitDef>, p: Prefix, u: UnitDef)
    requires Unambiguous(us, ps, adds) && p in ps && u in us
    ensures BuildRegistry(us, ps, adds).Some?
    ensures Get(BuildRegistry(us, ps, adds).value, PrefixedKey(p, u))
         == Some(Unit(u.dimension, u.scale * NatPow(p.scale, u.pow)))
  {
    PrefixedEntryFound(us, ps, adds, p, u);
    var e, reg := PrefixedEntry(p, u), BuildRegistry(us, ps, adds).value;
    assert Get(reg, e.key) == Some(e.unit);
    assert e.key == PrefixedKey(p, u) && e.unit == Unit(u.dimension, u.scale * NatPow(p.scale, u.pow));
  }

  lemma PrefixedEntryFound(us: seq<UnitDef>, ps: seq<Prefix>, adds: seq<UnitDef>, p: Prefix, u: UnitDef)
    requires Unambiguous(us, ps, adds) && p in ps && u in us
    ensures BuildRegistry(us, ps, adds).Some?
    ensures Get(BuildRegistry(us, ps, adds).value, PrefixedEntry(p, u).key) == Some(PrefixedEntry(p, u).unit)
  {
    var e := PrefixedEntry(p, u);
    BaseEntriesContainPrefixed(us, ps, p, u);
    BaseEntriesAreEntries(us, ps, adds, e);
    EmittedEntryFound(us, ps, adds, e);
  }

  /** The map holds every additional symbol with its table scale. */
  lemma BuildRegistryHasAdditional(us: seq<UnitDef>, ps: seq<Prefix>, adds: seq<UnitDef>, a: UnitDef)
    requires Unambiguous(us, ps, adds) && a in adds
    ensures BuildRegistry(us, ps, adds).Some?
    ensures Get(BuildRegistry(us, ps, adds).value, a.symbol) == Some(Unit(a.dimension, a.scale))
  {
    var j :| 0 <= j < |adds| && adds[j] == a;
    assert AdditionalEntries(adds)[j] == PlainEntry(a);
    assert Entries(us, ps, adds)[|BaseEntries(us, ps)| + j] == PlainEntry(a);
    EmittedEntryFound(us, ps, adds, PlainEntry(a));
  }

  /** Every key of the map came from one of the entry loops. */
  lemma BuildRegistryKeys(us: seq<UnitDef>, ps: seq<Prefix>, adds: seq<UnitDef>, k: string)
    requires Unambiguous(us, ps, adds)
    ensures BuildRegistry(us, ps, adds).Some?
    ensures k in BuildRegistry(us, ps, adds).value ==>
      || (exists u | u in us :: k == u.symbol)
      || (exists p, u | p in ps && u in us :: k == PrefixedKey(p, u))
      || (exists a | a in adds :: k == a.symbol)
  {
    BuildRegistrySucceeds(us, ps, adds);
    var es := Entries(us, ps, adds);
    if k in Insert(es) {
      InsertKeys(es);
      var i :| 0 <= i < |es| && es[i].key == k;
      if i < |BaseEntries(us, ps)| {
        assert es[i] in BaseEntries(us, ps);
        BaseEntriesOrigin(us, ps, es[i]);
        var u :| u in us && FromUnit(es[i], u, ps);
      } else {
        assert adds[i - |BaseEntries(us, ps)|] in adds;
      }
    }
  }

  /** The registry invariant holds when every table scale is positive. */
  predicate PositiveTables(us: seq<UnitDef>, ps: seq<Prefix>, adds: seq<UnitDef>) {
    && (forall u | u in us :: u.scale > 0.0)
    && (forall p | p in ps :: p.scale > 0.0)
    && (forall a | a in adds :: a.scale > 0.0)
  }

  lemma EmittedScalePositive(us: seq<UnitDef>, ps: seq<Prefix>, adds: seq<UnitDef>, e: Entry)
    requires PositiveTables(us, ps, adds) && e in Entries(us, ps, adds)
    ensures e.unit.scale > 0.0
  {
    if e in BaseEntries(us, ps) {
      BaseScalePositive(us, ps, adds, e);
    } else {
      var j :| 0 <= j < |AdditionalEntries(adds)| && AdditionalEntries(adds)[j] == e;
      assert adds[j] in adds;
    }
  }

  lemma BaseScalePositive(us: seq<UnitDef>, ps: seq<Prefix>, adds: seq<UnitDef>, e: Entry)
    requires PositiveTables(us, ps, adds) && e in BaseEntries(us, ps)
    ensures e.unit.scale > 0.0
  {
    BaseEntriesOrigin(us, ps, e);
    var u :| u in us && FromUnit(e, u, ps);
    if e != PlainEntry(u) {
      var p :| p in ps && e == PrefixedEntry(p, u);
      assert NatPow(p.scale, u.pow) > 0.0;
    }
  }

  /** Positive table scales give a registry whose every unit has a positive scale. */
  lemma BuildRegistryPositive(us: seq<UnitDef>, ps: seq<Prefix>, adds: seq<UnitDef>)
    requires Unambiguous(us, ps, adds) && PositiveTables(us, ps, adds)
    ensures BuildRegistry(us, ps, adds).Some?
    ensures PositiveScales(BuildRegistry(us, ps, adds).value)
  {
    var es := Entries(us, ps, adds);
    BuildRegistrySucceeds(us, ps, adds);
    InsertKeys(es);
    InsertValues(es);
    forall k | k in Insert(es)
      ensures Insert(es)[k].scale > 0.0
    {
      var i :| 0 <= i < |es| && es[i].key == k;
      EmittedScalePositive(us, ps, adds, es[i]);
    }
  }

  /** Two `entry` calls with the same key make the build fail. */
  lemma BuildRegistryFails(us: seq<UnitDef>, ps: seq<Prefix>, adds: seq<UnitDef>, a: nat, b: nat)
    requires a < b < |Entries(us, ps, adds)|
    requires Entries(us, ps, adds)[a].key == Entries(us, ps, adds)[b].key
    ensures BuildRegistry(us, ps, adds) == None
  {
  }
}
