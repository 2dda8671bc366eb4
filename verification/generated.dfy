/**
 The map the build script generates from its own tables, and `UNITS.get` on
 it. The tables are shown to be free of key collisions, so the generation
 succeeds, and a few lookups are worked out.
 */
module Generated {
  import opened Options
  import opened Powers
  import Dimensions
  import opened Units
  import opened Build

  // ---------------------------------------------------------------------------
  // The shapes of the table symbols

  lemma PrefixShape(p: Prefix)
    requires p in PREFIXES
    ensures |p.symbol| == 1 || p.symbol == "da" || p.symbol == "\U{00C2}\U{00B5}"
  {
  }

  lemma UnitSymbolShape(u: UnitDef)
    requires u in UNITS
    ensures |u.symbol| >= 1 && u.symbol[0] != 'a' && u.symbol[0] != '\U{00B5}'
  {
  }

  lemma KeyParts(p: Prefix, u: UnitDef)
    ensures PrefixedKey(p, u)[..|p.symbol|] == p.symbol
    ensures PrefixedKey(p, u)[|p.symbol|..] == u.symbol
  {
  }

  lemma BaseSymbolsDistinct()
    ensures DistinctSymbols(UNITS)
  {
  }

  lemma AdditionalSymbolsDistinct()
    ensures DistinctSymbols(ADDITIONAL_UNITS)
  {
  }

  lemma PrefixSymbolsDistinct()
    ensures DistinctPrefixes(PREFIXES)
  {
  }

  lemma TablesDisjoint(u: UnitDef, a: UnitDef)
    requires u in UNITS && a in ADDITIONAL_UNITS
    ensures u.symbol != a.symbol
  {
    BaseSymbolListed(u);
    AdditionalSymbolListed(a);
  }

  /** `t` is the symbol of a prefix. */
  predicate IsPrefixSymbol(t: string) {
    exists p | p in PREFIXES :: p.symbol == t
  }

  /** `t` is the symbol of a base unit (one that takes prefixes). */
  predicate IsBaseSymbol(t: string) {
    exists u | u in UNITS :: u.symbol == t
  }

  /** `s` reads as a prefix symbol of length `n` followed by a base-unit symbol. */
  predicate SplitsAt(s: string, n: nat) {
    n <= |s| && IsPrefixSymbol(s[..n]) && IsBaseSymbol(s[n..])
  }

  /** The prefix symbols, listed. */
  lemma NotAPrefix(t: string)
    requires t !in {"n", "\U{00C2}\U{00B5}", "m", "c", "d", "da", "h", "k", "M", "G"}
    ensures !IsPrefixSymbol(t)
  {
  }

  /** The base-unit symbols, listed. */
  lemma NotABaseSymbol(t: string)
    requires t !in {"m", "g", "t", "m2", "m3", "Sm3", "l", "L", "J", "Wh"}
    ensures !IsBaseSymbol(t)
  {
  }

  /** A one-letter symbol never splits: what would follow the prefix is empty. */
  lemma OneLetterDoesNotSplit(s: string)
    requires |s| == 1
    ensures !SplitsAt(s, 1) && !SplitsAt(s, 2)
  {
    assert s[1..] == "";
    NotABaseSymbol("");
  }

  /** A two-letter symbol never splits after two letters. */
  lemma TwoLettersDoNotSplitAtTwo(s: string)
    requires |s| == 2
    ensures !SplitsAt(s, 2)
  {
    assert s[2..] == "";
    NotABaseSymbol("");
  }

  // The symbols of more than one letter, one at a time.

  lemma SquareMetreDoesNotSplit()
    ensures !SplitsAt("m2", 1) && !SplitsAt("m2", 2)
  {
    assert "m2"[1..] == "2";
    NotABaseSymbol("2");
    TwoLettersDoNotSplitAtTwo("m2");
  }

  lemma CubicMetreDoesNotSplit()
    ensures !SplitsAt("m3", 1) && !SplitsAt("m3", 2)
  {
    assert "m3"[1..] == "3";
    NotABaseSymbol("3");
    TwoLettersDoNotSplitAtTwo("m3");
  }

  /** "m3" is a base symbol, but neither "S" nor "Sm" is a prefix. */
  lemma StandardCubicMetreDoesNotSplit()
    ensures !SplitsAt("Sm3", 1) && !SplitsAt("Sm3", 2)
  {
    assert "Sm3"[..1] == "S";
    NotAPrefix("S");
    assert "Sm3"[..2] == "Sm";
    NotAPrefix("Sm");
  }

  /** "h" is a prefix, but "W" is not, and "h" is no base symbol. */
  lemma WattHourDoesNotSplit()
    ensures !SplitsAt("Wh", 1) && !SplitsAt("Wh", 2)
  {
    assert "Wh"[1..] == "h";
    NotABaseSymbol("h");
    TwoLettersDoNotSplitAtTwo("Wh");
  }

  lemma MinuteDoesNotSplit()
    ensures !SplitsAt("min", 1) && !SplitsAt("min", 2)
  {
    assert "min"[1..] == "in";
    NotABaseSymbol("in");
    assert "min"[..2] == "mi";
    NotAPrefix("mi");
  }

  lemma HourDoesNotSplit()
    ensures !SplitsAt("hour", 1) && !SplitsAt("hour", 2)
  {
    assert "hour"[1..] == "our";
    NotABaseSymbol("our");
    assert "hour"[..2] == "ho";
    NotAPrefix("ho");
  }

  /** "da" is a prefix, but "y" is no base symbol. */
  lemma DayDoesNotSplit()
    ensures !SplitsAt("day", 1) && !SplitsAt("day", 2)
  {
    assert "day"[1..] == "ay";
    NotABaseSymbol("ay");
    assert "day"[2..] == "y";
    NotABaseSymbol("y");
  }

  lemma YearDoesNotSplit()
    ensures !SplitsAt("year", 1) && !SplitsAt("year", 2)
  {
    assert "year"[1..] == "ear";
    NotABaseSymbol("ear");
    assert "year"[..2] == "ye";
    NotAPrefix("ye");
  }

  lemma YrDoesNotSplit()
    ensures !SplitsAt("yr", 1) && !SplitsAt("yr", 2)
  {
    assert "yr"[1..] == "r";
    NotABaseSymbol("r");
    TwoLettersDoNotSplitAtTwo("yr");
  }

  lemma HectareDoesNotSplit()
    ensures !SplitsAt("ha", 1) && !SplitsAt("ha", 2)
  {
    assert "ha"[1..] == "a";
    NotABaseSymbol("a");
    TwoLettersDoNotSplitAtTwo("ha");
  }

  lemma BaseSymbolListed(w: UnitDef)
    requires w in UNITS
    ensures w.symbol in {"m", "g", "t", "m2", "m3", "Sm3", "l", "L", "J", "Wh"}
  {
  }

  lemma AdditionalSymbolListed(w: UnitDef)
    requires w in ADDITIONAL_UNITS
    ensures w.symbol in {"s", "min", "h", "hour", "d", "day", "y", "year", "yr", "ha"}
  {
  }

  /** No base-unit symbol reads as a prefixed base-unit symbol. */
  lemma BaseSymbolsDoNotSplit(w: UnitDef)
    requires w in UNITS
    ensures !SplitsAt(w.symbol, 1) && !SplitsAt(w.symbol, 2)
  {
    BaseSymbolListed(w);
    var s := w.symbol;
    if s == "m2" {
      SquareMetreDoesNotSplit();
    } else if s == "m3" {
      CubicMetreDoesNotSplit();
    } else if s == "Sm3" {
      StandardCubicMetreDoesNotSplit();
    } else if s == "Wh" {
      WattHourDoesNotSplit();
    } else {
      OneLetterDoesNotSplit(s);
    }
  }

  /** No additional-unit symbol reads as a prefixed base-unit symbol. */
  lemma AdditionalSymbolsDoNotSplit(w: UnitDef)
    requires w in ADDITIONAL_UNITS
    ensures !SplitsAt(w.symbol, 1) && !SplitsAt(w.symbol, 2)
  {
    AdditionalSymbolListed(w);
    var s := w.symbol;
    if s == "min" {
      MinuteDoesNotSplit();
    } else if s == "hour" {
      HourDoesNotSplit();
    } else if s == "day" {
      DayDoesNotSplit();
    } else if s == "year" {
      YearDoesNotSplit();
    } else if s == "yr" {
      YrDoesNotSplit();
    } else if s == "ha" {
      HectareDoesNotSplit();
    } else {
      OneLetterDoesNotSplit(s);
    }
  }

  lemma PlainSymbolsDoNotSplit(w: UnitDef)
    requires w in UNITS + ADDITIONAL_UNITS
    ensures !SplitsAt(w.symbol, 1) && !SplitsAt(w.symbol, 2)
  {
    if w in UNITS {
      BaseSymbolsDoNotSplit(w);
    } else {
      AdditionalSymbolsDoNotSplit(w);
    }
  }

  /** No prefixed base unit shares its key with a plain unit of either table. */
  lemma NotAPlainSymbol(p: Prefix, u: UnitDef, w: UnitDef)
    requires p in PREFIXES && u in UNITS && w in UNITS + ADDITIONAL_UNITS
    ensures PrefixedKey(p, u) != w.symbol
  {
    PrefixShape(p);
    KeyParts(p, u);
    PlainSymbolsDoNotSplit(w);
    var k := PrefixedKey(p, u);
    assert SplitsAt(k, |p.symbol|);
  }

  /** Two prefixed keys agree only when the base symbols do. */
  lemma PrefixedKeysDetermineUnit(p: Prefix, q: Prefix, u: UnitDef, w: UnitDef)
    requires p in PREFIXES && q in PREFIXES && u in UNITS && w in UNITS
    requires PrefixedKey(p, u) == PrefixedKey(q, w)
    ensures u.symbol == w.symbol
  {
    PrefixShape(p);
    PrefixShape(q);
    UnitSymbolShape(u);
    UnitSymbolShape(w);
    KeyParts(p, u);
    KeyParts(q, w);
    var k := PrefixedKey(p, u);
    if |p.symbol| == |q.symbol| {
      assert u.symbol == k[|p.symbol|..] == w.symbol;
    }
  }

  lemma TablesUnambiguous()
    ensures Unambiguous(UNITS, PREFIXES, ADDITIONAL_UNITS)
  {
    BaseSymbolsDistinct();
    AdditionalSymbolsDistinct();
    PrefixSymbolsDistinct();
    UnitTablesDisjoint();
    PrefixedKeysNotPlain();
    PrefixedKeysDetermineUnits();
  }

  lemma UnitTablesDisjoint()
    ensures forall u, a | u in UNITS && a in ADDITIONAL_UNITS :: u.symbol != a.symbol
  {
    forall u, a | u in UNITS && a in ADDITIONAL_UNITS
      ensures u.symbol != a.symbol
    {
      TablesDisjoint(u, a);
    }
  }

  lemma PrefixedKeysNotPlain()
    ensures forall p, u, w | p in PREFIXES && u in UNITS && w in UNITS + ADDITIONAL_UNITS
              :: PrefixedKey(p, u) != w.symbol
  {
    forall p, u, w | p in PREFIXES && u in UNITS && w in UNITS + ADDITIONAL_UNITS
      ensures PrefixedKey(p, u) != w.symbol
    {
      NotAPlainSymbol(p, u, w);
    }
  }

  lemma PrefixedKeysDetermineUnits()
    ensures forall p, q, u, w | p in PREFIXES && q in PREFIXES && u in UNITS && w in UNITS
              && PrefixedKey(p, u) == PrefixedKey(q, w) :: u.symbol == w.symbol
  {
    forall p, q, u, w | p in PREFIXES && q in PREFIXES && u in UNITS && w in UNITS
                        && PrefixedKey(p, u) == PrefixedKey(q, w)
      ensures u.symbol == w.symbol
    {
      PrefixedKeysDetermineUnit(p, q, u, w);
    }
  }

  lemma TablesPositive()
    ensures PositiveTables(UNITS, PREFIXES, ADDITIONAL_UNITS)
  {
    assert forall u | u in UNITS :: u.scale > 0.0 by { BaseScalesPositive(); }
    assert forall p | p in PREFIXES :: p.scale > 0.0 by { PrefixScalesPositive(); }
    assert forall a | a in ADDITIONAL_UNITS :: a.scale > 0.0 by { AdditionalScalesPositive(); }
  }

  lemma BaseScalesPositive()
    ensures forall u | u in UNITS :: u.scale > 0.0
  {
  }

  lemma PrefixScalesPositive()
    ensures forall p | p in PREFIXES :: p.scale > 0.0
  {
  }

  lemma AdditionalScalesPositive()
    ensures forall a | a in ADDITIONAL_UNITS :: a.scale > 0.0
  {
  }

  // ---------------------------------------------------------------------------
  // The generated map

  /** `UNITS`: one key per `entry` call of the build script, every scale positive. */
  function Registry(): (reg: Map)
    ensures |reg| == |UNITS| * (|PREFIXES| + 1) + |ADDITIONAL_UNITS| == 120
    ensures PositiveScales(reg)
  {
    TablesUnambiguous();
    TablesPositive();
    BuildRegistrySucceeds(UNITS, PREFIXES, ADDITIONAL_UNITS);
    BuildRegistryPositive(UNITS, PREFIXES, ADDITIONAL_UNITS);
    BuildRegistry(UNITS, PREFIXES, ADDITIONAL_UNITS).value
  }

  /** `UNITS.get(symbol)`. */
  function Lookup(symbol: string): (r: Option<Unit>)
    ensures r.Some? ==> r.value.scale > 0.0
  {
    Get(Registry(), symbol)
  }

  /** `s` is the symbol of a row of either unit table. */
  predicate PlainSymbol(s: string) {
    exists w | w in UNITS + ADDITIONAL_UNITS :: w.symbol == s
  }

  lemma LookupBase(u: UnitDef)
    requires u in UNITS
    ensures Lookup(u.symbol) == Some(Unit(u.dimension, u.scale))
  {
    TablesUnambiguous();
    BuildRegistryHasBase(UNITS, PREFIXES, ADDITIONAL_UNITS, u);
  }

  lemma LookupPrefixed(p: Prefix, u: UnitDef)
    requires p in PREFIXES && u in UNITS
    ensures Lookup(p.symbol + u.symbol) == Some(Unit(u.dimension, u.scale * NatPow(p.scale, u.pow)))
  {
    TablesUnambiguous();
    BuildRegistryHasPrefixed(UNITS, PREFIXES, ADDITIONAL_UNITS, p, u);
  }

  lemma LookupAdditional(a: UnitDef)
    requires a in ADDITIONAL_UNITS
    ensures Lookup(a.symbol) == Some(Unit(a.dimension, a.scale))
  {
    TablesUnambiguous();
    BuildRegistryHasAdditional(UNITS, PREFIXES, ADDITIONAL_UNITS, a);
  }

  /** Every plain symbol, and every prefix followed by a base-unit symbol, is found. */
  lemma KnownSymbolsFound(s: string)
    requires PlainSymbol(s) || SplitsAt(s, 1) || SplitsAt(s, 2)
    ensures Lookup(s).Some?
  {
    if PlainSymbol(s) {
      PlainSymbolFound(s);
    } else if SplitsAt(s, 1) {
      SplitSymbolFound(s, 1);
    } else {
      SplitSymbolFound(s, 2);
    }
  }

  lemma PlainSymbolFound(s: string)
    requires PlainSymbol(s)
    ensures Lookup(s).Some?
  {
    var w :| w in UNITS + ADDITIONAL_UNITS && w.symbol == s;
    if w in UNITS {
      LookupBase(w);
    } else {
      LookupAdditional(w);
    }
  }

  lemma SplitSymbolFound(s: string, n: nat)
    requires SplitsAt(s, n)
    ensures Lookup(s).Some?
  {
    var p :| p in PREFIXES && p.symbol == s[..n];
    var u :| u in UNITS && u.symbol == s[n..];
    assert s == PrefixedKey(p, u);
    PrefixedKeyFound(p, u);
  }

  lemma PrefixedKeyFound(p: Prefix, u: UnitDef)
    requires p in PREFIXES && u in UNITS
    ensures Lookup(PrefixedKey(p, u)).Some?
  {
    LookupPrefixed(p, u);
  }

  lemma RegistryKeys(s: string)
    requires s in Registry()
    ensures || (exists u | u in UNITS :: s == u.symbol)
            || (exists p, u | p in PREFIXES && u in UNITS :: s == PrefixedKey(p, u))
            || (exists a | a in ADDITIONAL_UNITS :: s == a.symbol)
  {
    TablesUnambiguous();
    BuildRegistryKeys(UNITS, PREFIXES, ADDITIONAL_UNITS, s);
  }

  /** Nothing else is found: additional units take no prefix. */
  lemma FoundSymbolsKnown(s: string)
    requires Lookup(s).Some?
    ensures PlainSymbol(s) || SplitsAt(s, 1) || SplitsAt(s, 2)
  {
    RegistryKeys(s);
    if exists p, u | p in PREFIXES && u in UNITS :: s == PrefixedKey(p, u) {
      var p, u :| p in PREFIXES && u in UNITS && s == PrefixedKey(p, u);
      PrefixShape(p);
      KeyParts(p, u);
      assert SplitsAt(s, |p.symbol|);
    } else if exists a | a in ADDITIONAL_UNITS :: s == a.symbol {
      var a :| a in ADDITIONAL_UNITS && s == a.symbol;
      assert a in UNITS + ADDITIONAL_UNITS;
    } else {
      var u :| u in UNITS && s == u.symbol;
      assert u in UNITS + ADDITIONAL_UNITS;
    }
  }

  /**
   A symbol is known exactly when it is a plain table symbol or reads as a
   prefix followed by a base-unit symbol.
   */
  lemma LookupDomain(s: string)
    ensures Lookup(s).Some? <==> PlainSymbol(s) || SplitsAt(s, 1) || SplitsAt(s, 2)
  {
    if Lookup(s).Some? {
      FoundSymbolsKnown(s);
    }
    if PlainSymbol(s) || SplitsAt(s, 1) || SplitsAt(s, 2) {
      KnownSymbolsFound(s);
    }
  }

  // ---------------------------------------------------------------------------
  // Worked lookups

  /** Base units are found under their own symbols with their table scales. */
  lemma MetreLookup()
    ensures Lookup("m") == Some(Unit(Dimensions.LENGTH, 1.0))
  {
    LookupBase(UNITS[0]);
  }

  lemma KilometreLookup()
    ensures Lookup("km") == Some(Unit(Dimensions.LENGTH, 1000.0))
  {
    var p, u := PREFIXES[7], UNITS[0];
    assert p.symbol + u.symbol == "km";
    LookupPrefixed(p, u);
  }

  /** The kilogram is the prefixed gram, of scale 1. */
  lemma KilogramLookup()
    ensures Lookup("kg") == Some(Unit(Dimensions.MASS, 1.0))
  {
    var p, u := PREFIXES[7], UNITS[1];
    assert p.symbol + u.symbol == "kg";
    LookupPrefixed(p, u);
  }

  lemma MegajouleLookup()
    ensures Lookup("MJ") == Some(Unit(Dimensions.ENERGY, 1000000.0))
  {
    var p, u := PREFIXES[8], UNITS[8];
    assert p.symbol + u.symbol == "MJ";
    LookupPrefixed(p, u);
  }

  lemma KilowattHourLookup()
    ensures Lookup("kWh") == Some(Unit(Dimensions.ENERGY, 3600000.0))
  {
    var p, u := PREFIXES[7], UNITS[9];
    assert p.symbol + u.symbol == "kWh";
    LookupPrefixed(p, u);
  }

  /** Prefixes on squared and cubed units are raised to the unit's power. */
  lemma SquareKilometreLookup()
    ensures Lookup("km2") == Some(Unit(Dimensions.AREA, 1000000.0))
  {
    var p, u := PREFIXES[7], UNITS[3];
    assert p.symbol + u.symbol == "km2";
    LookupPrefixed(p, u);
  }

  lemma CubicCentimetreLookup()
    ensures Lookup("cm3") == Some(Unit(Dimensions.VOLUME, 0.000001))
  {
    var p, u := PREFIXES[3], UNITS[4];
    assert p.symbol + u.symbol == "cm3";
    LookupPrefixed(p, u);
  }

  /** The litre row has power 3, so the milli prefix is cubed: 1e-3 * (1e-3)^3. */
  lemma MillilitreLookup()
    ensures Lookup("ml") == Some(Unit(Dimensions.VOLUME, 0.000000000001))
  {
    var p, u := PREFIXES[2], UNITS[6];
    assert p.symbol + u.symbol == "ml";
    LookupPrefixed(p, u);
  }

  /** The two-letter prefix: "dam" is ten metres. */
  lemma DecametreLookup()
    ensures Lookup("dam") == Some(Unit(Dimensions.LENGTH, 10.0))
  {
    var p, u := PREFIXES[5], UNITS[0];
    assert p.symbol + u.symbol == "dam";
    LookupPrefixed(p, u);
  }

  lemma DecimetreLookup()
    ensures Lookup("dm") == Some(Unit(Dimensions.LENGTH, 0.1))
  {
    var p, u := PREFIXES[4], UNITS[0];
    assert p.symbol + u.symbol == "dm";
    LookupPrefixed(p, u);
  }

  /** Additional units are found under their own symbols with their table scales. */
  lemma SecondLookup()
    ensures Lookup("s") == Some(Unit(Dimensions.TIME, 1.0))
  {
    LookupAdditional(ADDITIONAL_UNITS[0]);
  }

  lemma HourLookup()
    ensures Lookup("h") == Some(Unit(Dimensions.TIME, 3600.0))
  {
    LookupAdditional(ADDITIONAL_UNITS[2]);
  }

  lemma HectareLookup()
    ensures Lookup("ha") == Some(Unit(Dimensions.AREA, 10000.0))
  {
    LookupAdditional(ADDITIONAL_UNITS[9]);
  }

  lemma NotPlain(s: string)
    requires s !in {"m", "g", "t", "m2", "m3", "Sm3", "l", "L", "J", "Wh"}
    requires s !in {"s", "min", "h", "hour", "d", "day", "y", "year", "yr", "ha"}
    ensures !PlainSymbol(s)
  {
    forall w | w in UNITS + ADDITIONAL_UNITS
      ensures w.symbol != s
    {
      if w in UNITS {
        BaseSymbolListed(w);
      } else {
        AdditionalSymbolListed(w);
      }
    }
  }

  lemma PrefixedMinuteDoesNotSplit()
    ensures !SplitsAt("kmin", 1) && !SplitsAt("kmin", 2)
  {
    assert "kmin"[1..] == "min";
    NotABaseSymbol("min");
    assert "kmin"[..2] == "km";
    NotAPrefix("km");
  }

  lemma UnknownDoesNotSplit()
    ensures !SplitsAt("xyz", 1) && !SplitsAt("xyz", 2)
  {
    assert "xyz"[..1] == "x";
    NotAPrefix("x");
    assert "xyz"[..2] == "xy";
    NotAPrefix("xy");
  }

  /** Additional units take no prefix: "kmin" is not a unit. */
  lemma PrefixedMinuteAbsent()
    ensures Lookup("kmin") == None
  {
    NotPlain("kmin");
    PrefixedMinuteDoesNotSplit();
    LookupDomain("kmin");
  }

  /** Unknown text is not found. */
  lemma UnknownTextAbsent()
    ensures Lookup("xyz") == None
  {
    NotPlain("xyz");
    UnknownDoesNotSplit();
    LookupDomain("xyz");
  }

  /** The empty text is not found. */
  lemma EmptyTextAbsent()
    ensures Lookup("") == None
  {
    NotPlain("");
    assert !SplitsAt("", 1) && !SplitsAt("", 2);
    LookupDomain("");
  }
}
