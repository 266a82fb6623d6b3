/**
 * app/unit_system_conversions.py: the NIST tables of SI prefixes, base units,
 * derived units and common non-SI units, each sorted with the longest name
 * first, and the substitution chains built from them.
 */
module Units {
  import opened Rules
  import opened Sorting
  import Scanner

  /**
   * One table row `(name, symbol, value)`: the value is an expression in SI
   * base units, or for a base unit the name of its dimension.
   */
  datatype Entry = Entry(name: string, symbol: string, value: string)

  /** The sort key of every table: entries are ordered by descending name length. */
  function NameLength(e: Entry): nat
  {
    |e.name|
  }

  // ---------------------------------------------------------------------------
  // The tables as written, before sorting. Each table is the sequence of its
  // rows in the order written, and row `i` is given by a function of `i`, so
  // that a proof about one row does not have to unfold the whole table.
  // ---------------------------------------------------------------------------

  function PrefixTable(): seq<Entry>
  {
    seq(20, PrefixRow)
  }

  function PrefixRow(i: int): (e: Entry)
    ensures Labelled(e)
  {
    match i
    case 0 => Entry("yotta", "Y", "(10**24)")
    case 1 => Entry("zetta", "Z", "(10**21)")
    case 2 => Entry("exa", "E", "(10**18)")
    case 3 => Entry("peta", "P", "(10**15)")
    case 4 => Entry("tera", "T", "(10**12)")
    case 5 => Entry("giga", "G", "(10**9) ")
    case 6 => Entry("mega", "M", "(10**6) ")
    case 7 => Entry("kilo", "k", "(10**3) ")
    case 8 => Entry("hecto", "h", "(10**2) ")
    case 9 => Entry("deka", "da", "(10**1) ")
    case 10 => Entry("deci", "d", "(10**(-1)) ")
    case 11 => Entry("centi", "c", "(10**(-2)) ")
    case 12 => Entry("milli", "m", "(10**(-3)) ")
    case 13 => Entry("micro", "mu", "(10**(-6)) ")
    case 14 => Entry("nano", "n", "(10**(-9)) ")
    case 15 => Entry("pico", "p", "(10**(-12))")
    case 16 => Entry("femto", "f", "(10**(-15))")
    case 17 => Entry("atto", "a", "(10**(-18))")
    case 18 => Entry("zepto", "z", "(10**(-21))")
    case _ => Entry("yocto", "y", "(10**(-24))")
  }

  /** Gram, not kilogram, is the base unit of mass. */
  function BaseUnitTable(): seq<Entry>
  {
    seq(7, BaseUnitRow)
  }

  function BaseUnitRow(i: int): (e: Entry)
    ensures Labelled(e) && |e.value| > 0
  {
    match i
    case 0 => Entry("metre", "m", "length")
    case 1 => Entry("gram", "g", "mass")
    case 2 => Entry("second", "s", "time")
    case 3 => Entry("ampere", "A", "electric_current")
    case 4 => Entry("kelvin", "K", "temperature")
    case 5 => Entry("mole", "mol", "amount_of_substance")
    case _ => Entry("candela", "cd", "luminous_intensity")
  }

  /** Degrees Celsius is omitted; the radian's symbol is "r" so that it does not collide with "rad". */
  function DerivedUnitTable(): seq<Entry>
  {
    seq(21, DerivedUnitRow)
  }

  /** Row `i` of the derived units, looked up in one of two halves of eleven and ten rows. */
  function DerivedUnitRow(i: int): (e: Entry)
    ensures Labelled(e)
  {
    if i < 11 then DerivedUnitRowBelow11(i) else DerivedUnitRowFrom11(i)
  }

  function DerivedUnitRowBelow11(i: int): (e: Entry)
    ensures Labelled(e)
  {
    match i
    case 0 => Entry("radian", "r", "(1)")
    case 1 => Entry("steradian", "sr", "(1)")
    case 2 => Entry("hertz", "Hz", "(second**(-1))")
    case 3 => Entry("newton", "N", "(metre*kilo*gram*second**(-2))")
    case 4 => Entry("pascal", "Pa", "(metre**(-1)*kilogram*second**(-2))")
    case 5 => Entry("joule", "J", "(metre**2*kilo*gram*second**(-2))")
    case 6 => Entry("watt", "W", "(metre**2*kilo*gram*second**(-3))")
    case 7 => Entry("coulomb", "C", "(second*ampere)")
    case 8 => Entry("volt", "V", "(metre**2*kilo*gram*second**(-3)*ampere**(-1))")
    case 9 => Entry("farad", "F", "(metre**(-2)*(kilo*gram)**(-1)*second**4*ampere**2)")
    case _ => Entry("ohm", "O", "(metre**2*kilo*gram*second**(-3)*ampere**(-2))")
  }

  function DerivedUnitRowFrom11(i: int): (e: Entry)
    ensures Labelled(e)
  {
    match i
    case 11 => Entry("siemens", "S", "(metre**(-2)*kilo*gram**(-1)*second**3*ampere**2)")
    case 12 => Entry("weber", "Wb", "(metre**2*kilo*gram*second**(-2)*ampere**(-1))")
    case 13 => Entry("tesla", "T", "(kilo*gram*second**(-2)*ampere**(-1))")
    case 14 => Entry("henry", "H", "(metre**2*kilo*gram*second**(-2)*ampere**(-2))")
    case 15 => Entry("lumen", "lm", "(candela)")
    case 16 => Entry("lux", "lx", "(metre**(-2)*candela)")
    case 17 => Entry("becquerel", "Bq", "(second**(-1))")
    case 18 => Entry("gray", "Gy", "(metre**2*second**(-2))")
    case 19 => Entry("sievert", "Sv", "(metre**2*second**(-2))")
    case _ => Entry("katal", "kat", "(second**(-1)*mole)")
  }

  /**
   * The non-SI units whose short forms are converted. The angstrom's symbol is
   * stored as the two characters U+00C3 U+00A5.
   */
  function VeryCommonUnitTable(): seq<Entry>
  {
    seq(10, VeryCommonUnitRow)
  }

  function VeryCommonUnitRow(i: int): (e: Entry)
    ensures Labelled(e)
  {
    match i
    case 0 => Entry("minute", "min", "(60*second)")
    case 1 => Entry("hour", "h", "(3600*second)")
    case 2 => Entry("degree", "deg", "(pi/180)")
    case 3 => Entry("liter", "L", "(10**(-3)*metre**3)")
    case 4 => Entry("metricton", "t", "(10**3*kilo*gram)")
    case 5 => Entry("neper", "Np", "(1)")
    case 6 => Entry("bel", "B", "((1/2)*log(10))")
    case 7 => Entry("electronvolt", "eV", "(1.60218*10**(-19)*joule)")
    case 8 => Entry("atomicmassunit", "u", "(1.66054*10**(-27)*kilo*gram)")
    case _ => Entry("angstrom", "\U{00C3}\U{00A5}", "(10**(-10)*metre)")
  }

  /** The other common non-SI units; their symbols are never converted. */
  function OtherCommonUnitTable(): seq<Entry>
  {
    seq(14, OtherCommonUnitRow)
  }

  function OtherCommonUnitRow(i: int): (e: Entry)
    ensures Labelled(e)
  {
    match i
    case 0 => Entry("day", "d", "(86400*second)")
    case 1 => Entry("angleminute", "'", "(pi/10800)")
    case 2 => Entry("anglesecond", "\"", "(pi/648000)")
    case 3 => Entry("astronomicalunit", "au", "(149597870700*metre)")
    case 4 => Entry("nauticalmile", "nmi", "(1852*metre)")
    case 5 => Entry("knot", "kn", "((1852/3600)*metre/second)")
    case 6 => Entry("are", "a", "(10**2*metre**2)")
    case 7 => Entry("hectare", "ha", "(10**4*metre**2)")
    case 8 => Entry("bar", "bar", "(10**5*pascal)")
    case 9 => Entry("barn", "b", "(10**(-28)*metre**2)")
    case 10 => Entry("curie", "Ci", "(3.7*10**10*becquerel)")
    case 11 => Entry("roentgen", "R", "(2.58*10**(-4)*kelvin/(kilo*gram))")
    case 12 => Entry("rad", "rad", "(10**(-2)*gray)")
    case _ => Entry("rem", "rem", "(10**(-2)*sievert)")
  }

  // ---------------------------------------------------------------------------
  // The tables as returned, sorted with the longest name first
  // ---------------------------------------------------------------------------

  function Prefixes(): seq<Entry>
  {
    SortByKeyDesc(PrefixTable(), NameLength)
  }

  function BaseUnits(): seq<Entry>
  {
    SortByKeyDesc(BaseUnitTable(), NameLength)
  }

  function DerivedUnits(): seq<Entry>
  {
    SortByKeyDesc(DerivedUnitTable(), NameLength)
  }

  function VeryCommonUnits(): seq<Entry>
  {
    SortByKeyDesc(VeryCommonUnitTable(), NameLength)
  }

  /** The other common units followed by the (already sorted) very common ones, sorted again. */
  function CommonUnits(): seq<Entry>
  {
    SortByKeyDesc(OtherCommonUnitTable() + VeryCommonUnits(), NameLength)
  }

  /** The units whose symbols are converted: base, derived and very common units. */
  function ShortFormUnits(): seq<Entry>
  {
    BaseUnits() + DerivedUnits() + VeryCommonUnits()
  }

  // ---------------------------------------------------------------------------
  // Columns and rule lists built from tables
  // ---------------------------------------------------------------------------

  function Names(es: seq<Entry>): (ns: seq<string>)
    ensures |ns| == |es| && forall i :: 0 <= i < |es| ==> ns[i] == es[i].name
  {
    seq(|es|, i requires 0 <= i < |es| => es[i].name)
  }

  function Values(es: seq<Entry>): (vs: seq<string>)
    ensures |vs| == |es| && forall i :: 0 <= i < |es| ==> vs[i] == es[i].value
  {
    seq(|es|, i requires 0 <= i < |es| => es[i].value)
  }

  /** `[(x[0], x[2]) for x in es]`: each name rewritten to its value. */
  function NameToValue(es: seq<Entry>): (rs: seq<Rule>)
    ensures |rs| == |es| && forall i :: 0 <= i < |es| ==> rs[i] == Rule(es[i].name, es[i].value)
  {
    seq(|es|, i requires 0 <= i < |es| => Rule(es[i].name, es[i].value))
  }

  /** `[(x[1], x[0]) for x in es]`: each symbol rewritten to its name. */
  function SymbolToName(es: seq<Entry>): (rs: seq<Rule>)
    ensures |rs| == |es| && forall i :: 0 <= i < |es| ==> rs[i] == Rule(es[i].symbol, es[i].name)
  {
    seq(|es|, i requires 0 <= i < |es| => Rule(es[i].symbol, es[i].name))
  }

  /** `[(n, n) for n in ns]`: rules that rewrite a word to itself. */
  function Identities(ns: seq<string>): (rs: seq<Rule>)
    ensures |rs| == |ns| && forall i :: 0 <= i < |ns| ==> rs[i] == Rule(ns[i], ns[i])
  {
    seq(|ns|, i requires 0 <= i < |ns| => Rule(ns[i], ns[i]))
  }

  /** `names_of_prefixes_units_and_dimensions`. */
  function NamesOfPrefixesUnitsAndDimensions(): seq<string>
  {
    Names(Prefixes()) + Names(BaseUnits()) + Values(BaseUnits()) + Names(DerivedUnits()) + Names(CommonUnits())
  }

  // ---------------------------------------------------------------------------
  // convert_short_forms
  // ---------------------------------------------------------------------------

  /** The long forms that are protected from the short-form conversion, before sorting. */
  function ProtectedWords(): seq<string>
  {
    Names(ShortFormUnits()) + Names(CommonUnits()) + Values(BaseUnits()) + Names(Prefixes())
  }

  /** The three spellings of prefix `p` before unit `u`: adjacent, with '*' and with ' '. */
  function Spellings(p: Entry, u: Entry): seq<Rule>
  {
    var expansion := p.name + "*(" + u.name + ")";
    [ Rule(p.symbol + u.symbol, expansion),
      Rule(p.symbol + "*" + u.symbol, expansion),
      Rule(p.symbol + " " + u.symbol, expansion) ]
  }

  function FixesFor(p: Entry, us: seq<Entry>): seq<Rule>
  {
    if us == [] then [] else FixesFor(p, us[..|us| - 1]) + Spellings(p, us[|us| - 1])
  }

  /** The collision fixes in the order the nested loops append them. */
  function CollisionFixes(ps: seq<Entry>, us: seq<Entry>): seq<Rule>
  {
    if ps == [] then [] else CollisionFixes(ps[..|ps| - 1], us) + FixesFor(ps[|ps| - 1], us)
  }

  /**
   * The single pass `convert_short_forms` returns: the protected long forms,
   * then the prefixed-unit fixes, then the unit symbols, each block sorted
   * with the longest pattern first.
   */
  function ShortFormRules(): seq<Rule>
  {
    ShortFormPass(ProtectedWords(), Prefixes(), ShortFormUnits())
  }

  /** The three sorted blocks, for given protected words, prefixes and units. */
  function ShortFormPass(words: seq<string>, ps: seq<Entry>, us: seq<Entry>): seq<Rule>
  {
    SortByKeyDesc(Identities(words), PatternLength)
    + SortByKeyDesc(CollisionFixes(ps, us), PatternLength)
    + SortByKeyDesc(SymbolToName(us), PatternLength)
  }

  /** The inner `for unit ...` loop of `convert_short_forms`: the three spellings of `prefix` before each unit. */
  method AppendFixesFor(fixes: seq<Rule>, prefix: Entry, us: seq<Entry>) returns (r: seq<Rule>)
    ensures r == fixes + FixesFor(prefix, us)
  {
    r := fixes;
    for j := 0 to |us|
      invariant r == fixes + FixesFor(prefix, us[..j])
    {
      assert us[..j + 1][..j] == us[..j];
      var unit := us[j];
      var expansion := prefix.name + "*(" + unit.name + ")";
      r := r + [Rule(prefix.symbol + unit.symbol, expansion)];
      r := r + [Rule(prefix.symbol + "*" + unit.symbol, expansion)];
      r := r + [Rule(prefix.symbol + " " + unit.symbol, expansion)];
    }
    assert us[..|us|] == us;
  }

  /** The nested `for prefix ... for unit ...` loops of `convert_short_forms`. */
  method BuildCollisionFixes(ps: seq<Entry>, us: seq<Entry>) returns (fixes: seq<Rule>)
    ensures fixes == CollisionFixes(ps, us)
  {
    fixes := [];
    for i := 0 to |ps|
      invariant fixes == CollisionFixes(ps[..i], us)
    {
      assert ps[..i + 1][..i] == ps[..i];
      fixes := AppendFixesFor(fixes, ps[i], us);
    }
    assert ps[..|ps|] == ps;
  }

  /** `convert_short_forms`. */
  method ConvertShortForms() returns (rules: seq<Rule>)
    ensures rules == ShortFormRules()
  {
    var units := ShortFormUnits();
    var protect := SortByKeyDesc(Identities(ProtectedWords()), PatternLength);
    var fixes := BuildCollisionFixes(Prefixes(), units);
    fixes := SortByKeyDesc(fixes, PatternLength);
    var shortForms := SortByKeyDesc(SymbolToName(units), PatternLength);
    rules := protect + fixes + shortForms;
  }

  // ---------------------------------------------------------------------------
  // The substitution chains
  // ---------------------------------------------------------------------------

  /** `convert_to_SI_base_units`: common units, then derived units, then prefixes, each to its value. */
  function ToSIBaseUnits(): seq<seq<Rule>>
  {
    [NameToValue(CommonUnits()), NameToValue(DerivedUnits()), NameToValue(Prefixes())]
  }

  /** `convert_to_SI_base_units_short_form`: the short-form pass first. */
  function ToSIBaseUnitsShortForm(): seq<seq<Rule>>
  {
    [ShortFormRules()] + ToSIBaseUnits()
  }

  /** `convert_SI_base_units_to_dimensions`: then each base unit to its dimension. */
  function ToDimensions(): seq<seq<Rule>>
  {
    ToSIBaseUnits() + [NameToValue(BaseUnits())]
  }

  /** `convert_SI_base_units_to_dimensions_short_form`. */
  function ToDimensionsShortForm(): seq<seq<Rule>>
  {
    ToSIBaseUnitsShortForm() + [NameToValue(BaseUnits())]
  }

  // ---------------------------------------------------------------------------
  // Properties of the tables
  // ---------------------------------------------------------------------------

  /** A returned table is its source table reordered, longest name first, ties kept in source order. */
  ghost predicate StableLongestFirst(sorted: seq<Entry>, table: seq<Entry>)
  {
    && SortedDesc(sorted, NameLength)
    && multiset(sorted) == multiset(table)
    && forall n: nat :: WithKey(sorted, NameLength, n) == WithKey(table, NameLength, n)
  }

  lemma SortIsStableLongestFirst(table: seq<Entry>)
    ensures StableLongestFirst(SortByKeyDesc(table, NameLength), table)
  {
    SortOrders(table, NameLength);
    SortPermutes(table, NameLength);
    forall n: nat
      ensures WithKey(SortByKeyDesc(table, NameLength), NameLength, n) == WithKey(table, NameLength, n)
    {
      SortIsStable(table, NameLength, n);
    }
  }

  /** Each returned table is its source list, sorted stably by descending name length. */
  lemma PrefixesShape()
    ensures |Prefixes()| == 20 && StableLongestFirst(Prefixes(), PrefixTable())
  {
    SortIsStableLongestFirst(PrefixTable());
  }

  lemma BaseUnitsShape()
    ensures |BaseUnits()| == 7 && StableLongestFirst(BaseUnits(), BaseUnitTable())
  {
    SortIsStableLongestFirst(BaseUnitTable());
  }

  lemma DerivedUnitsShape()
    ensures |DerivedUnits()| == 21 && StableLongestFirst(DerivedUnits(), DerivedUnitTable())
  {
    SortIsStableLongestFirst(DerivedUnitTable());
  }

  lemma VeryCommonUnitsShape()
    ensures |VeryCommonUnits()| == 10 && StableLongestFirst(VeryCommonUnits(), VeryCommonUnitTable())
  {
    SortIsStableLongestFirst(VeryCommonUnitTable());
  }

  lemma CommonUnitsShape()
    ensures |CommonUnits()| == 24
    ensures StableLongestFirst(CommonUnits(), OtherCommonUnitTable() + VeryCommonUnits())
  {
    VeryCommonUnitsShape();
    SortIsStableLongestFirst(OtherCommonUnitTable() + VeryCommonUnits());
  }

  /** 20 prefixes, 7 base units, their 7 dimensions, 21 derived units and 24 common units. */
  lemma NameCount()
    ensures |NamesOfPrefixesUnitsAndDimensions()| == 79
  {
    PrefixesShape();
    BaseUnitsShape();
    DerivedUnitsShape();
    CommonUnitsShape();
  }

  /** An entry is in a returned table exactly when it is in the source list. */
  lemma SortedMembers(table: seq<Entry>, e: Entry)
    ensures e in SortByKeyDesc(table, NameLength) <==> e in table
  {
    SortKeepsMembers(table, NameLength, e);
  }

  /** The common units include every very common unit. */
  lemma VeryCommonUnitsAreCommon(e: Entry)
    requires e in VeryCommonUnits()
    ensures e in CommonUnits()
  {
    SortedMembers(OtherCommonUnitTable() + VeryCommonUnits(), e);
  }

  // ---------------------------------------------------------------------------
  // Properties of convert_short_forms
  // ---------------------------------------------------------------------------

  lemma {:induction false} FixesForLength(p: Entry, us: seq<Entry>)
    ensures |FixesFor(p, us)| == 3 * |us|
  {
    if us != [] {
      FixesForLength(p, us[..|us| - 1]);
    }
  }

  lemma ThreeTimesStep(n: nat, m: nat)
    ensures 3 * (n + 1) * m == 3 * n * m + 3 * m
  {
  }

  /** Three fixes for every prefix and unit pair. */
  lemma {:induction false} CollisionFixesLength(ps: seq<Entry>, us: seq<Entry>)
    ensures |CollisionFixes(ps, us)| == 3 * |ps| * |us|
  {
    if ps != [] {
      var n := |ps| - 1;
      assert |CollisionFixes(ps, us)| == |CollisionFixes(ps[..n], us)| + |FixesFor(ps[n], us)|;
      CollisionFixesLength(ps[..n], us);
      FixesForLength(ps[n], us);
      ThreeTimesStep(n, |us|);
    }
  }

  lemma ShortFormUnitCount()
    ensures |ShortFormUnits()| == 38
  {
    BaseUnitsShape();
    DerivedUnitsShape();
    VeryCommonUnitsShape();
  }

  lemma ProtectedWordCount()
    ensures |ProtectedWords()| == 89
  {
    ShortFormUnitCount();
    CommonUnitsShape();
    BaseUnitsShape();
    PrefixesShape();
  }

  lemma CollisionFixCount()
    ensures |CollisionFixes(Prefixes(), ShortFormUnits())| == 2280
  {
    ShortFormUnitCount();
    PrefixesShape();
    CollisionFixesLength(Prefixes(), ShortFormUnits());
  }

  /** The three blocks of the short-form pass hold 89, 2280 and 38 rules. */
  lemma ShortFormBlockSizes()
    ensures |SortByKeyDesc(Identities(ProtectedWords()), PatternLength)| == 89
    ensures |SortByKeyDesc(CollisionFixes(Prefixes(), ShortFormUnits()), PatternLength)| == 2280
    ensures |SortByKeyDesc(SymbolToName(ShortFormUnits()), PatternLength)| == 38
    ensures |ShortFormRules()| == 89 + 2280 + 38
  {
    ProtectedWordCount();
    CollisionFixCount();
    ShortFormUnitCount();
  }

  lemma {:induction false} FixesForMembers(p: Entry, us: seq<Entry>, r: Rule)
    ensures r in FixesFor(p, us) <==> exists j :: 0 <= j < |us| && r in Spellings(p, us[j])
  {
    if us != [] {
      var init := us[..|us| - 1];
      FixesForMembers(p, init, r);
      if r in FixesFor(p, init) {
        var j :| 0 <= j < |init| && r in Spellings(p, init[j]);
        assert us[j] == init[j];
      }
      if exists j :: 0 <= j < |us| && r in Spellings(p, us[j]) {
        var j :| 0 <= j < |us| && r in Spellings(p, us[j]);
        if j < |init| {
          assert init[j] == us[j];
        }
      }
    }
  }

  lemma {:induction false} CollisionFixesComeFromPairs(ps: seq<Entry>, us: seq<Entry>, r: Rule)
    requires r in CollisionFixes(ps, us)
    ensures exists i, j :: 0 <= i < |ps| && 0 <= j < |us| && r in Spellings(ps[i], us[j])
  {
    var init := ps[..|ps| - 1];
    var last := ps[|ps| - 1];
    if r in CollisionFixes(init, us) {
      CollisionFixesComeFromPairs(init, us, r);
      var i, j :| 0 <= i < |init| && 0 <= j < |us| && r in Spellings(init[i], us[j]);
      assert ps[i] == init[i];
    } else {
      FixesForMembers(last, us, r);
      var j :| 0 <= j < |us| && r in Spellings(last, us[j]);
      assert r in Spellings(ps[|ps| - 1], us[j]);
    }
  }

  lemma {:induction false} PairsHaveCollisionFixes(ps: seq<Entry>, us: seq<Entry>, i: nat, j: nat, r: Rule)
    requires i < |ps| && j < |us| && r in Spellings(ps[i], us[j])
    ensures r in CollisionFixes(ps, us)
  {
    var init := ps[..|ps| - 1];
    if i < |init| {
      assert init[i] == ps[i];
      PairsHaveCollisionFixes(init, us, i, j, r);
    } else {
      FixesForMembers(ps[i], us, r);
    }
  }

  /** A rule is a collision fix exactly when it is one of the three spellings of some prefix and unit. */
  lemma CollisionFixMembers(ps: seq<Entry>, us: seq<Entry>, r: Rule)
    ensures r in CollisionFixes(ps, us)
            <==> exists i, j :: 0 <= i < |ps| && 0 <= j < |us| && r in Spellings(ps[i], us[j])
  {
    if r in CollisionFixes(ps, us) {
      CollisionFixesComeFromPairs(ps, us, r);
    }
    if exists i, j :: 0 <= i < |ps| && 0 <= j < |us| && r in Spellings(ps[i], us[j]) {
      var i, j :| 0 <= i < |ps| && 0 <= j < |us| && r in Spellings(ps[i], us[j]);
      PairsHaveCollisionFixes(ps, us, i, j, r);
    }
  }

  /**
   * For every prefix and every unit with a short form, the rules taking
   * "kmol", "k*mol" and "k mol" (say) to "kilo*(mole)" are all rules of the
   * short-form pass.
   */
  lemma PrefixedSymbolsAreFixed(i: nat, j: nat)
    requires i < |Prefixes()| && j < |ShortFormUnits()|
    ensures forall r :: r in Spellings(Prefixes()[i], ShortFormUnits()[j]) ==> r in ShortFormRules()
  {
    var ps, us := Prefixes(), ShortFormUnits();
    forall r | r in Spellings(ps[i], us[j])
      ensures r in ShortFormRules()
    {
      PairsHaveCollisionFixes(ps, us, i, j, r);
      SortKeepsMembers(CollisionFixes(ps, us), PatternLength, r);
    }
  }

  // ---------------------------------------------------------------------------
  // The long forms survive the short-form pass
  // ---------------------------------------------------------------------------

  /** Neither the name nor the symbol of the entry is empty. */
  predicate Labelled(e: Entry)
  {
    |e.name| > 0 && |e.symbol| > 0
  }

  /** Every entry of the table is labelled. */
  predicate AllLabelled(es: seq<Entry>)
  {
    forall i :: 0 <= i < |es| ==> Labelled(es[i])
  }

  /** No value of the table is empty; for the base units these are the dimension names. */
  predicate AllValued(es: seq<Entry>)
  {
    forall i :: 0 <= i < |es| ==> |es[i].value| > 0
  }

  lemma SortKeepsLabels(table: seq<Entry>)
    requires AllLabelled(table)
    ensures AllLabelled(SortByKeyDesc(table, NameLength))
  {
    var sorted := SortByKeyDesc(table, NameLength);
    forall i | 0 <= i < |sorted|
      ensures Labelled(sorted[i])
    {
      SortKeepsMembers(table, NameLength, sorted[i]);
    }
  }

  lemma AppendKeepsLabels(a: seq<Entry>, b: seq<Entry>)
    requires AllLabelled(a) && AllLabelled(b)
    ensures AllLabelled(a + b)
  {
  }

  /** A table given row by row is labelled when each of its rows is. */
  lemma RowsLabelled(n: nat, row: int -> Entry)
    requires forall i :: 0 <= i < n ==> Labelled(row(i))
    ensures AllLabelled(seq(n, row))
  {
  }

  lemma PrefixTableLabelled()
    ensures AllLabelled(PrefixTable())
  {
    RowsLabelled(20, PrefixRow);
  }

  lemma PrefixesLabelled()
    ensures AllLabelled(Prefixes())
  {
    PrefixTableLabelled();
    SortKeepsLabels(PrefixTable());
  }

  lemma BaseUnitTableLabelled()
    ensures AllLabelled(BaseUnitTable())
  {
    RowsLabelled(7, BaseUnitRow);
  }

  lemma BaseUnitsLabelled()
    ensures AllLabelled(BaseUnits())
  {
    BaseUnitTableLabelled();
    SortKeepsLabels(BaseUnitTable());
  }

  lemma DerivedUnitTableLabelled()
    ensures AllLabelled(DerivedUnitTable())
  {
    RowsLabelled(21, DerivedUnitRow);
  }

  lemma DerivedUnitsLabelled()
    ensures AllLabelled(DerivedUnits())
  {
    DerivedUnitTableLabelled();
    SortKeepsLabels(DerivedUnitTable());
  }

  lemma VeryCommonUnitTableLabelled()
    ensures AllLabelled(VeryCommonUnitTable())
  {
    RowsLabelled(10, VeryCommonUnitRow);
  }

  lemma VeryCommonUnitsLabelled()
    ensures AllLabelled(VeryCommonUnits())
  {
    VeryCommonUnitTableLabelled();
    SortKeepsLabels(VeryCommonUnitTable());
  }

  lemma OtherCommonUnitTableLabelled()
    ensures AllLabelled(OtherCommonUnitTable())
  {
    RowsLabelled(14, OtherCommonUnitRow);
  }

  lemma CommonUnitsLabelled()
    ensures AllLabelled(CommonUnits())
  {
    VeryCommonUnitsLabelled();
    OtherCommonUnitTableLabelled();
    AppendKeepsLabels(OtherCommonUnitTable(), VeryCommonUnits());
    SortKeepsLabels(OtherCommonUnitTable() + VeryCommonUnits());
  }

  lemma ShortFormUnitsLabelled()
    ensures AllLabelled(ShortFormUnits())
  {
    BaseUnitsLabelled();
    DerivedUnitsLabelled();
    VeryCommonUnitsLabelled();
    AppendKeepsLabels(BaseUnits(), DerivedUnits());
    AppendKeepsLabels(BaseUnits() + DerivedUnits(), VeryCommonUnits());
  }

  /** Every base unit names its dimension. */
  lemma BaseUnitsValued()
    ensures AllValued(BaseUnits())
  {
    var sorted := BaseUnits();
    forall i | 0 <= i < |sorted|
      ensures |sorted[i].value| > 0
    {
      SortKeepsMembers(BaseUnitTable(), NameLength, sorted[i]);
    }
  }

  predicate NonEmptyWords(ws: seq<string>)
  {
    forall k :: 0 <= k < |ws| ==> ws[k] != ""
  }

  lemma WordsNonEmpty(a: seq<Entry>, b: seq<Entry>, c: seq<Entry>, d: seq<Entry>)
    requires AllLabelled(a) && AllLabelled(b) && AllValued(c) && AllLabelled(d)
    ensures NonEmptyWords(Names(a) + Names(b) + Values(c) + Names(d))
  {
  }

  lemma ProtectedWordsNonEmpty()
    ensures NonEmptyWords(ProtectedWords())
  {
    ShortFormUnitsLabelled();
    CommonUnitsLabelled();
    BaseUnitsValued();
    PrefixesLabelled();
    WordsNonEmpty(ShortFormUnits(), CommonUnits(), BaseUnits(), Prefixes());
  }

  lemma SortKeepsNonEmptyPatterns(rules: seq<Rule>)
    requires Scanner.NonEmptyPatterns(rules)
    ensures Scanner.NonEmptyPatterns(SortByKeyDesc(rules, PatternLength))
  {
    var sorted := SortByKeyDesc(rules, PatternLength);
    forall k | 0 <= k < |sorted|
      ensures sorted[k].pattern != ""
    {
      SortKeepsMembers(rules, PatternLength, sorted[k]);
    }
  }

  lemma CollisionPatternsNonEmpty(ps: seq<Entry>, us: seq<Entry>)
    requires AllLabelled(us)
    ensures Scanner.NonEmptyPatterns(CollisionFixes(ps, us))
  {
    var fixes := CollisionFixes(ps, us);
    forall k | 0 <= k < |fixes|
      ensures fixes[k].pattern != ""
    {
      CollisionFixesComeFromPairs(ps, us, fixes[k]);
      var i, j :| 0 <= i < |ps| && 0 <= j < |us| && fixes[k] in Spellings(ps[i], us[j]);
      assert |fixes[k].pattern| >= |us[j].symbol| > 0;
    }
  }

  lemma ShortFormPassNonEmpty(words: seq<string>, ps: seq<Entry>, us: seq<Entry>)
    requires NonEmptyWords(words) && AllLabelled(us)
    ensures Scanner.NonEmptyPatterns(ShortFormPass(words, ps, us))
  {
    SortKeepsNonEmptyPatterns(Identities(words));
    CollisionPatternsNonEmpty(ps, us);
    SortKeepsNonEmptyPatterns(CollisionFixes(ps, us));
    SortKeepsNonEmptyPatterns(SymbolToName(us));
  }

  /** No rule of the short-form pass has an empty pattern, so scanning with it terminates. */
  lemma ShortFormPatternsNonEmpty()
    ensures Scanner.NonEmptyPatterns(ShortFormRules())
  {
    ProtectedWordsNonEmpty();
    ShortFormUnitsLabelled();
    ShortFormPassNonEmpty(ProtectedWords(), Prefixes(), ShortFormUnits());
  }

  lemma NamesAppend(a: seq<Entry>, b: seq<Entry>)
    ensures Names(a + b) == Names(a) + Names(b)
  {
    assert forall i :: 0 <= i < |a + b| ==> Names(a + b)[i] == (Names(a) + Names(b))[i];
  }

  lemma NameOfMember(es: seq<Entry>, e: Entry)
    requires e in es
    ensures e.name in Names(es)
  {
    var m :| 0 <= m < |es| && es[m] == e;
    assert Names(es)[m] == e.name;
  }

  /** The list of protected words and the list of names hold the same words when `vs` is part of `cs`. */
  lemma SameWords(ps: seq<Entry>, bs: seq<Entry>, ds: seq<Entry>, vs: seq<Entry>, cs: seq<Entry>, n: string)
    requires forall e :: e in vs ==> e in cs
    ensures n in Names(bs + ds + vs) + Names(cs) + Values(bs) + Names(ps)
            <==> n in Names(ps) + Names(bs) + Values(bs) + Names(ds) + Names(cs)
  {
    NamesAppend(bs + ds, vs);
    NamesAppend(bs, ds);
    if n in Names(vs) {
      var k :| 0 <= k < |vs| && Names(vs)[k] == n;
      NameOfMember(cs, vs[k]);
    }
  }

  lemma VeryCommonUnitsAllCommon()
    ensures forall e :: e in VeryCommonUnits() ==> e in CommonUnits()
  {
    forall e | e in VeryCommonUnits()
      ensures e in CommonUnits()
    {
      VeryCommonUnitsAreCommon(e);
    }
  }

  /** Every word `names_of_prefixes_units_and_dimensions` lists is protected, and nothing else is. */
  lemma ProtectedWordsAreTheNames(n: string)
    ensures n in ProtectedWords() <==> n in NamesOfPrefixesUnitsAndDimensions()
  {
    VeryCommonUnitsAllCommon();
    SameWords(Prefixes(), BaseUnits(), DerivedUnits(), VeryCommonUnits(), CommonUnits(), n);
  }

  /** Every protected word is kept by the pass built from any prefixes and units. */
  lemma ProtectedWordKept(n: string, words: seq<string>, ps: seq<Entry>, us: seq<Entry>)
    requires n in words && NonEmptyWords(words) && AllLabelled(us)
    ensures Scanner.NonEmptyPatterns(ShortFormPass(words, ps, us))
    ensures Scanner.Rewrite(n, ShortFormPass(words, ps, us)) == n
  {
    var identities := Identities(words);
    var protect := SortByKeyDesc(identities, PatternLength);
    var others := SortByKeyDesc(CollisionFixes(ps, us), PatternLength)
                  + SortByKeyDesc(SymbolToName(us), PatternLength);
    assert ShortFormPass(words, ps, us) == protect + others;
    ShortFormPassNonEmpty(words, ps, us);
    forall k | 0 <= k < |protect|
      ensures protect[k].replacement == protect[k].pattern
    {
      SortKeepsMembers(identities, PatternLength, protect[k]);
    }
    SortOrders(identities, PatternLength);
    var m :| 0 <= m < |words| && words[m] == n;
    assert identities[m] == Rule(n, n);
    SortKeepsMembers(identities, PatternLength, Rule(n, n));
    Scanner.ProtectedNameIsKept(n, protect, others);
  }

  /**
   * The short-form pass leaves every prefix, unit and dimension name as it
   * is: no symbol inside "metre", "kilo" or "length" is converted.
   */
  lemma LongFormsSurviveShortForms(n: string)
    requires n in NamesOfPrefixesUnitsAndDimensions()
    ensures Scanner.NonEmptyPatterns(ShortFormRules())
    ensures Scanner.Rewrite(n, ShortFormRules()) == n
  {
    ProtectedWordsAreTheNames(n);
    ProtectedWordsNonEmpty();
    ShortFormUnitsLabelled();
    ProtectedWordKept(n, ProtectedWords(), Prefixes(), ShortFormUnits());
  }

  // ---------------------------------------------------------------------------
  // Properties of the chains
  // ---------------------------------------------------------------------------

  /** A name-to-value pass built from a table sorted by name length is ordered longest pattern first. */
  lemma NameToValueLongestFirst(table: seq<Entry>)
    ensures SortedDesc(NameToValue(SortByKeyDesc(table, NameLength)), PatternLength)
  {
    var es := SortByKeyDesc(table, NameLength);
    SortOrders(table, NameLength);
    var rs := NameToValue(es);
    forall i, j | 0 <= i < j < |rs|
      ensures PatternLength(rs[i]) >= PatternLength(rs[j])
    {
      assert NameLength(es[i]) >= NameLength(es[j]);
    }
  }

  /**
   * The SI chain has three passes, common units, derived units and prefixes,
   * each ordered longest pattern first.
   */
  lemma CommonPassLongestFirst()
    ensures |ToSIBaseUnits()| == 3
    ensures SortedDesc(ToSIBaseUnits()[0], PatternLength)
  {
    NameToValueLongestFirst(OtherCommonUnitTable() + VeryCommonUnits());
  }

  lemma DerivedPassLongestFirst()
    ensures SortedDesc(ToSIBaseUnits()[1], PatternLength)
  {
    NameToValueLongestFirst(DerivedUnitTable());
  }

  lemma PrefixPassLongestFirst()
    ensures SortedDesc(ToSIBaseUnits()[2], PatternLength)
  {
    NameToValueLongestFirst(PrefixTable());
  }

  /**
   * The dimension chain is the SI chain with one more pass, also ordered
   * longest pattern first, and its short-form variant puts the short-form
   * pass in front.
   */
  lemma DimensionChainShape()
    ensures |ToDimensions()| == 4 && ToDimensions()[..3] == ToSIBaseUnits()
    ensures SortedDesc(ToDimensions()[3], PatternLength)
    ensures ToDimensionsShortForm() == [ShortFormRules()] + ToDimensions()
  {
    NameToValueLongestFirst(BaseUnitTable());
    ConsAppend(ShortFormRules(), ToSIBaseUnits(), NameToValue(BaseUnits()));
  }

  lemma ConsAppend<T>(x: T, a: seq<T>, y: T)
    ensures [x] + a + [y] == [x] + (a + [y])
  {
  }

  /** A name-to-value pass over a sorted table rewrites each entry of the source list to its value. */
  lemma NameToValueOfSorted(table: seq<Entry>, e: Entry)
    requires e in table
    ensures Rule(e.name, e.value) in NameToValue(SortByKeyDesc(table, NameLength))
  {
    var es := SortByKeyDesc(table, NameLength);
    SortKeepsMembers(table, NameLength, e);
    var m :| 0 <= m < |es| && es[m] == e;
    assert NameToValue(es)[m] == Rule(e.name, e.value);
  }

  /** The last pass of the dimension chain rewrites each base unit, such as "metre", to its dimension, "length". */
  lemma BaseUnitsBecomeDimensions(e: Entry)
    requires e in BaseUnitTable()
    ensures Rule(e.name, e.value) in ToDimensions()[3]
  {
    NameToValueOfSorted(BaseUnitTable(), e);
  }
}
