/**
  The measure converter of the cocktail app: free-text measures such as
  "1 1/2 oz" are parsed into an amount and a unit, the unit is looked up in a
  fixed table of four volume families, and the amount is shown either under the
  family's imperial label or in millilitres, centilitres or decilitres.
  Unparseable text and unknown units come back unchanged.

  Both regular expressions of the source are written out as hand-made
  matchers that take the same choices, in the same order, as a backtracking
  JavaScript engine.
*/
module Measurement {
  import opened Wrappers
  import opened Text

  datatype System = Metric | Imperial

  // ---------------------------------------------------------------------------
  // The unit table
  // ---------------------------------------------------------------------------

  /** One entry of the `units` table: its aliases, its factor to millilitres and its imperial label. */
  datatype UnitFamily = UnitFamily(name: string, aliases: seq<string>, mlFactor: real, imperial: string)

  const Units: seq<UnitFamily> := [
    UnitFamily("oz", ["oz", "ounce", "ounces", "fl oz"], 29.5735, "oz"),
    UnitFamily("cup", ["cup", "cups"], 236.588, "cup"),
    UnitFamily("spoon", ["spoon", "spoons", "tblsp", "tbsp", "tablespoon", "tablespoons"], 14.7868, "tbsp"),
    UnitFamily("teaspoon", ["tsp", "teaspoon", "teaspoons"], 4.92892, "tsp")
  ]

  /** No alias belongs to two families, so the lookup below never depends on the table's order. */
  lemma AliasesDisjoint()
    ensures forall i, j, a :: 0 <= i < j < |Units| && a in Units[i].aliases ==> a !in Units[j].aliases
  {
    forall i, j, a | 0 <= i < j < |Units| && a in Units[i].aliases ensures a !in Units[j].aliases {
      assert Units[0].aliases == ["oz", "ounce", "ounces", "fl oz"];
      assert Units[1].aliases == ["cup", "cups"];
      assert Units[2].aliases == ["spoon", "spoons", "tblsp", "tbsp", "tablespoon", "tablespoons"];
      assert Units[3].aliases == ["tsp", "teaspoon", "teaspoons"];
    }
  }

  /** Every alias starts with a lower-case letter, so it can never be mistaken for part of an amount. */
  lemma AliasesStartWithLetter(j: nat, a: string)
    requires j < |Units| && a in Units[j].aliases
    ensures a != [] && IsLowerLetter(a[0])
  {
  }

  /** Text that does not start with a lower-case letter is no alias. */
  lemma NotAlias(unit: string)
    requires unit == [] || !IsLowerLetter(unit[0])
    ensures FindUnit(unit).None?
  {
    forall j, a | 0 <= j < |Units| && a in Units[j].aliases ensures a != unit {
      AliasesStartWithLetter(j, a);
    }
  }

  function FindUnitFrom(unit: string, i: nat): (r: Option<nat>)
    requires i <= |Units|
    ensures r.Some? ==> i <= r.value < |Units| && unit in Units[r.value].aliases
    ensures r.Some? ==> forall j :: i <= j < r.value ==> unit !in Units[j].aliases
    ensures r.None? ==> forall j :: i <= j < |Units| ==> unit !in Units[j].aliases
    decreases |Units| - i
  {
    if i == |Units| then None
    else if unit in Units[i].aliases then Some(i)
    else FindUnitFrom(unit, i + 1)
  }

  /** `units.find((u) => u.aliases.includes(unit))`: the family listing the unit exactly as given. */
  function FindUnit(unit: string): (r: Option<UnitFamily>)
    ensures r.Some? ==> r.value in Units && unit in r.value.aliases
    ensures r.None? ==> forall j :: 0 <= j < |Units| ==> unit !in Units[j].aliases
  {
    match FindUnitFrom(unit, 0)
    case None => None
    case Some(j) => Some(Units[j])
  }

  /** The lookup selects the one family that lists the alias. */
  lemma FindUnitSelects(unit: string, j: nat)
    requires j < |Units| && unit in Units[j].aliases
    ensures FindUnit(unit) == Some(Units[j])
  {
    AliasesDisjoint();
  }

  // ---------------------------------------------------------------------------
  // Cleaning: `measure.trim().replace(/\s+/g, " ")`
  // ---------------------------------------------------------------------------

  /**
    Every whitespace character is a plain ' ', and no two spaces stand side by
    side. Stated by recursion on the text so that the solver unfolds it
    only on demand; SingleSpacedAt gives it character by character.
  */
  predicate SingleSpaced(c: string) {
    c == [] || (
      && (c[0] == ' ' || !IsSpace(c[0]))
      && (c[0] == ' ' && |c| > 1 ==> c[1] != ' ')
      && SingleSpaced(c[1..]))
  }

  lemma {:induction false} SingleSpacedAt(c: string, i: nat)
    requires SingleSpaced(c) && i < |c|
    ensures c[i] == ' ' || !IsSpace(c[i])
    ensures c[i] == ' ' && i + 1 < |c| ==> c[i + 1] != ' '
  {
    if i > 0 {
      SingleSpacedAt(c[1..], i - 1);
    }
  }

  /** `replace(/\s+/g, " ")`: every run of whitespace becomes a single space. */
  function CollapseSpaces(s: string): (r: string)
    ensures |r| <= |s|
    ensures SingleSpaced(r)
    ensures s == [] <==> r == []
    ensures s != [] ==> (IsSpace(s[0]) <==> r[0] == ' ')
    ensures s != [] ==> (IsSpace(s[|s| - 1]) <==> r[|r| - 1] == ' ')
    decreases |s|
  {
    if s == [] then []
    else if IsSpace(s[0]) then
      var t := TrimStart(s);
      TrimStartShape(s);
      assert t != s;
      assert t != [] ==> t[|t| - 1] == s[|s| - 1];
      assert t == [] ==> IsSpace(s[|s| - 1]);
      var r := [' '] + CollapseSpaces(t);
      assert r[1..] == CollapseSpaces(t);
      r
    else
      var r := [s[0]] + CollapseSpaces(s[1..]);
      assert r[1..] == CollapseSpaces(s[1..]);
      r
  }

  /** A leading whitespace run becomes one space. */
  lemma CollapseSpaceHead(s: string)
    requires s != [] && IsSpace(s[0])
    ensures CollapseSpaces(s) == [' '] + CollapseSpaces(TrimStart(s))
  {
  }

  /** A leading character that is not whitespace is kept. */
  lemma CollapseOtherHead(s: string)
    requires s != [] && !IsSpace(s[0])
    ensures CollapseSpaces(s) == [s[0]] + CollapseSpaces(s[1..])
  {
  }

  /** Collapsing keeps every character that is not whitespace, in order: only whitespace is replaced. */
  lemma {:induction false} CollapseNonSpace(s: string)
    ensures NonSpace(CollapseSpaces(s)) == NonSpace(s)
    decreases |s|
  {
    if s != [] {
      if IsSpace(s[0]) {
        var t := TrimStart(s);
        TrimStartShape(s);
        assert s == s[..|s| - |t|] + t;
        NonSpaceAppend(s[..|s| - |t|], t);
        NonSpaceAllSpace(s[..|s| - |t|]);
        CollapseSpaceHead(s);
        CollapseNonSpace(t);
        var r := [' '] + CollapseSpaces(t);
        assert r[1..] == CollapseSpaces(t);
      } else {
        CollapseOtherHead(s);
        CollapseNonSpace(s[1..]);
        var r := [s[0]] + CollapseSpaces(s[1..]);
        assert r[1..] == CollapseSpaces(s[1..]);
      }
    }
  }

  /**
    A whitespace run between text that does not end in whitespace and text
    that does not start with it becomes one space, and the text on either
    side is collapsed on its own.
  */
  lemma {:induction false} CollapseJoin(x: string, w: string, y: string)
    requires w != [] && AllSpace(w)
    requires x == [] || !IsSpace(x[|x| - 1])
    requires y == [] || !IsSpace(y[0])
    ensures CollapseSpaces(x + w + y) == CollapseSpaces(x) + " " + CollapseSpaces(y)
    decreases |x|
  {
    if x == [] {
      JoinAtStart(x, w, y);
    } else if IsSpace(x[0]) {
      var t := TrimStart(x);
      TrimStartShape(x);
      if t == [] {
        assert false;
      }
      assert t[|t| - 1] == x[|x| - 1];
      CollapseJoin(t, w, y);
      JoinAfterSpace(x, w, y, t);
    } else {
      var x' := x[1..];
      assert x' != [] ==> x'[|x'| - 1] == x[|x| - 1];
      CollapseJoin(x', w, y);
      JoinAfterOther(x, w, y);
    }
  }

  /** The base case of `CollapseJoin`: nothing before the run. */
  lemma JoinAtStart(x: string, w: string, y: string)
    requires x == [] && w != [] && AllSpace(w)
    requires y == [] || !IsSpace(y[0])
    ensures CollapseSpaces(x + w + y) == CollapseSpaces(x) + " " + CollapseSpaces(y)
  {
    var s := x + w + y;
    assert s == w + y && s[0] == w[0];
    TrimStartAfterSpace(w, y);
    CollapseSpaceHead(s);
    assert CollapseSpaces(x) + " " + CollapseSpaces(y) == [' '] + CollapseSpaces(y);
  }

  /** The step of `CollapseJoin` over leading whitespace of `x`. */
  lemma JoinAfterSpace(x: string, w: string, y: string, t: string)
    requires x != [] && IsSpace(x[0]) && t == TrimStart(x) && t != []
    requires CollapseSpaces(t + w + y) == CollapseSpaces(t) + " " + CollapseSpaces(y)
    ensures CollapseSpaces(x + w + y) == CollapseSpaces(x) + " " + CollapseSpaces(y)
  {
    Regroup(x, w, y);
    Regroup(t, w, y);
    TrimStartAppend(x, w + y);
    HeadOfJoin(x, w + y);
    CollapseSpaceHead(x + w + y);
    CollapseSpaceHead(x);
    PrefixJoin([' '], CollapseSpaces(t), CollapseSpaces(y));
  }

  /** The step of `CollapseJoin` over a leading character of `x` that is not whitespace. */
  lemma JoinAfterOther(x: string, w: string, y: string)
    requires x != [] && !IsSpace(x[0])
    requires CollapseSpaces(x[1..] + w + y) == CollapseSpaces(x[1..]) + " " + CollapseSpaces(y)
    ensures CollapseSpaces(x + w + y) == CollapseSpaces(x) + " " + CollapseSpaces(y)
  {
    Regroup(x, w, y);
    Regroup(x[1..], w, y);
    HeadOfJoin(x, w + y);
    CollapseOtherHead(x + w + y);
    CollapseOtherHead(x);
    PrefixJoin([x[0]], CollapseSpaces(x[1..]), CollapseSpaces(y));
  }

  lemma Regroup(a: string, b: string, c: string)
    ensures a + b + c == a + (b + c)
  {
  }

  lemma PrefixJoin(p: string, a: string, b: string)
    ensures p + (a + " " + b) == p + a + " " + b
  {
  }

  lemma HeadOfJoin(a: string, b: string)
    requires a != []
    ensures (a + b)[0] == a[0] && (a + b)[1..] == a[1..] + b
  {
  }

  /** Text after cleaning: no whitespace at the ends, and inside only single ' ' characters. */
  predicate IsClean(c: string) {
    && (c == [] || (c[0] != ' ' && c[|c| - 1] != ' '))
    && SingleSpaced(c)
  }

  /** Text is single-spaced when, character by character, its only whitespace is single spaces. */
  lemma {:induction false} SingleSpacedIntro(c: string)
    requires forall i :: 0 <= i < |c| ==> c[i] == ' ' || !IsSpace(c[i])
    requires forall i :: 0 <= i < |c| - 1 ==> c[i] == ' ' ==> c[i + 1] != ' '
    ensures SingleSpaced(c)
  {
    if c != [] {
      var t := c[1..];
      assert forall i :: 0 <= i < |t| ==> t[i] == c[i + 1];
      SingleSpacedIntro(t);
    }
  }

  /** Text without surrounding spaces whose only whitespace is single spaces is clean. */
  lemma CleanIntro(c: string)
    requires c == [] || (c[0] != ' ' && c[|c| - 1] != ' ')
    requires forall i :: 0 <= i < |c| ==> c[i] == ' ' || !IsSpace(c[i])
    requires forall i :: 0 <= i < |c| - 1 ==> c[i] == ' ' ==> c[i + 1] != ' '
    ensures IsClean(c)
  {
    SingleSpacedIntro(c);
  }

  /** Collapsing text whose spaces are already single changes nothing. */
  lemma {:induction false} CollapseSingleSpaced(s: string)
    requires SingleSpaced(s)
    ensures CollapseSpaces(s) == s
    decreases |s|
  {
    if s != [] {
      CollapseStep(s);
      CollapseSingleSpaced(s[1..]);
      HeadTail(s);
    }
  }

  lemma HeadTail(s: string)
    requires s != []
    ensures [s[0]] + s[1..] == s
  {
  }

  /** On single-spaced text the collapse keeps the first character and goes on with the rest. */
  lemma CollapseStep(s: string)
    requires SingleSpaced(s) && s != []
    ensures SingleSpaced(s[1..])
    ensures CollapseSpaces(s) == [s[0]] + CollapseSpaces(s[1..])
  {
    if IsSpace(s[0]) {
      SingleSpacedAt(s, 0);
      var t := s[1..];
      if t != [] {
        SingleSpacedAt(s, 1);
        assert t[0] == s[1];
      }
      assert TrimStart(t) == t;
      assert TrimStart(s) == t;
    }
  }

  /** `measure.trim().replace(/\s+/g, " ")`. */
  function Clean(s: string): (c: string)
    ensures IsClean(c)
    ensures |c| <= |s|
    ensures NonSpace(c) == NonSpace(s)
  {
    TrimNonSpace(s);
    CollapseNonSpace(Trim(s));
    CollapseSpaces(Trim(s))
  }

  /** Cleaning is idempotent: clean text is its own cleaned form. */
  lemma CleanOfClean(c: string)
    requires IsClean(c)
    ensures Clean(c) == c
  {
    if c != [] {
      SingleSpacedAt(c, 0);
      SingleSpacedAt(c, |c| - 1);
      TrimOfTrimmed(c);
    }
    CollapseSingleSpaced(c);
  }

  // ---------------------------------------------------------------------------
  // Parsing: /^((?:\d+(?:\s+\d+\/\d+)?|\d+\/\d+))\s*(.+)$/ on the cleaned text
  // ---------------------------------------------------------------------------

  /** The amount the regular expression captures: a digit run, optionally followed by " N/M". */
  datatype AmountText = Whole(digits: string) | Mixed(whole: string, num: string, denom: string)

  /** The two capture groups of a successful match. */
  datatype Split = Split(amount: AmountText, unit: string)

  predicate AmountOk(a: AmountText) {
    match a
    case Whole(d) => d != [] && IsDigits(d)
    case Mixed(w, n, m) => w != [] && IsDigits(w) && n != [] && IsDigits(n) && m != [] && IsDigits(m)
  }

  /** The text of an amount. */
  function Spell(a: AmountText): string
  {
    match a
    case Whole(d) => d
    case Mixed(w, n, m) => w + " " + n + "/" + m
  }

  /** The source tells the two forms apart by `amount.includes(" ")`: only a mixed number holds a space. */
  lemma SpellHasSpaceIffMixed(a: AmountText)
    requires AmountOk(a)
    ensures (exists i :: 0 <= i < |Spell(a)| && Spell(a)[i] == ' ') <==> a.Mixed?
  {
    if a.Mixed? {
      assert Spell(a)[|a.whole|] == ' ';
    }
  }

  /** The length of the greedy `\d+` (possibly empty) starting at `i`. */
  function DigitRun(c: string, i: nat): (n: nat)
    requires i <= |c|
    ensures i + n <= |c|
    ensures forall k :: i <= k < i + n ==> IsDigit(c[k])
    ensures i + n == |c| || !IsDigit(c[i + n])
    decreases |c| - i
  {
    if i < |c| && IsDigit(c[i]) then 1 + DigitRun(c, i + 1) else 0
  }

  /** A maximal digit run is the one DigitRun finds. */
  lemma {:induction false} DigitRunExact(c: string, i: nat, n: nat)
    requires i + n <= |c|
    requires forall k :: i <= k < i + n ==> IsDigit(c[k])
    requires i + n == |c| || !IsDigit(c[i + n])
    ensures DigitRun(c, i) == n
    decreases n
  {
    if n > 0 {
      DigitRunExact(c, i + 1, n - 1);
    }
  }

  /**
    The optional group `(?:\s+\d+\/\d+)` after `d` leading digits, with greedy
    numerator and denominator: their lengths. On clean text `\s+` is one ' '.
  */
  function FractionAfter(c: string, d: nat): (r: Option<(nat, nat)>)
    requires d <= |c|
    ensures r.Some? ==> var (n, m) := r.value;
      && n > 0 && m > 0 && d + 2 + n + m <= |c| && c[d] == ' ' && c[d + 1 + n] == '/'
      && (forall k :: d + 1 <= k < d + 1 + n ==> IsDigit(c[k]))
      && (forall k :: d + 2 + n <= k < d + 2 + n + m ==> IsDigit(c[k]))
      && (d + 2 + n + m == |c| || !IsDigit(c[d + 2 + n + m]))
  {
    if d < |c| && c[d] == ' ' then
      var n := DigitRun(c, d + 1);
      if n > 0 && d + 1 + n < |c| && c[d + 1 + n] == '/' then
        var m := DigitRun(c, d + 2 + n);
        if m > 0 then Some((n, m)) else None
      else None
    else None
  }

  /**
    Where the engine cuts the text, as positions: a whole number ending at `e`,
    or a mixed number whose leading digits end at `d`, whose numerator has `n`
    digits and whose denominator ends at `e`. The unit group starts at `e`.
  */
  datatype Cut = WholeCut(e: nat) | MixedCut(d: nat, n: nat, e: nat)

  /** The cut leaves text for the unit, and the pieces it cuts out have the shape of an amount. */
  predicate CutOk(c: string, cut: Cut) {
    && 0 < cut.e < |c|
    && match cut
       case WholeCut(e) => forall k :: 0 <= k < e ==> IsDigit(c[k])
       case MixedCut(d, n, e) =>
         && 0 < d && 0 < n && d + 3 + n <= e
         && (forall k :: 0 <= k < d ==> IsDigit(c[k]))
         && c[d] == ' ' && c[d + 1 + n] == '/'
         && (forall k :: d + 1 <= k < d + 1 + n ==> IsDigit(c[k]))
         && (forall k :: d + 2 + n <= k < e ==> IsDigit(c[k]))
  }

  /**
    The choices of the backtracking engine for the regular expression of the
    parser. The first alternative `\d+(?:\s+\d+\/\d+)?` is tried first and
    `(.+)$` takes any non-empty rest, so the second alternative `\d+\/\d+`
    never gets a turn. When nothing is left for `(.+)`, the engine
    backtracks: the denominator gives up its last digit if it has two,
    otherwise the group is skipped, and as a last resort the leading digits
    give up their last digit.
  */
  function MatchCut(c: string): (r: Option<Cut>)
    ensures r.Some? ==> CutOk(c, r.value)
  {
    var d := DigitRun(c, 0);
    if d == 0 then None
    else
      var frac := FractionAfter(c, d);
      if frac.Some? && d + 2 + frac.value.0 + frac.value.1 < |c| then
        Some(MixedCut(d, frac.value.0, d + 2 + frac.value.0 + frac.value.1))
      else if frac.Some? && frac.value.1 >= 2 then
        Some(MixedCut(d, frac.value.0, d + 1 + frac.value.0 + frac.value.1))
      else if d < |c| then
        Some(WholeCut(d))
      else if d >= 2 then
        Some(WholeCut(d - 1))
      else
        None
  }

  /** A digit run found by the matcher, as a piece of text. */
  lemma DigitsSlice(c: string, i: nat, j: nat)
    requires i <= j <= |c|
    requires forall k :: i <= k < j ==> IsDigit(c[k])
    ensures IsDigits(c[i..j])
  {
    assert forall k :: 0 <= k < j - i ==> c[i..j][k] == c[i + k];
  }

  /** The amount a cut captures; it spells exactly the text before the unit group. */
  function AmountAt(c: string, cut: Cut): (a: AmountText)
    requires CutOk(c, cut)
    ensures AmountOk(a)
    ensures Spell(a) == c[..cut.e]
  {
    match cut
    case WholeCut(e) =>
      DigitsSlice(c, 0, e);
      Whole(c[..e])
    case MixedCut(d, n, e) =>
      DigitsSlice(c, 0, d);
      DigitsSlice(c, d + 1, d + 1 + n);
      DigitsSlice(c, d + 2 + n, e);
      assert c[..e] == c[..d] + [c[d]] + c[d + 1..d + 1 + n] + [c[d + 1 + n]] + c[d + 2 + n..e];
      Mixed(c[..d], c[d + 1..d + 1 + n], c[d + 2 + n..e])
  }

  /** `\s*` before the unit group: on clean text it takes at most one leading space. */
  function DropSpace(u: string): (r: string)
    ensures u == r || u == " " + r
  {
    if u != [] && u[0] == ' ' then u[1..] else u
  }

  /** A suffix of clean text, less its leading space, is not empty. */
  lemma CleanSuffix(c: string, e: nat)
    requires IsClean(c) && e < |c|
    ensures DropSpace(c[e..]) != []
  {
    if c[e] == ' ' {
      assert e + 1 < |c|;
    }
  }

  /**
    The regular expression of the parser on clean text, where `\s+` and
    `\s*` can only take one ' ' and `.` matches every character: the two
    capture groups. The amount is well formed, the unit is not empty, and
    the text is the amount, then what `\s*` took, then the unit
    (MatchAmountSound).
  */
  function MatchAmount(c: string): (r: Option<Split>)
    requires IsClean(c)
    ensures r.Some? ==> AmountOk(r.value.amount) && r.value.unit != []
  {
    match MatchCut(c)
    case None => None
    case Some(cut) =>
      CleanSuffix(c, cut.e);
      Some(Split(AmountAt(c, cut), DropSpace(c[cut.e..])))
  }

  /** The text is the amount a cut captures, then what `\s*` took, then the unit. */
  lemma CutSound(c: string, cut: Cut)
    requires CutOk(c, cut)
    ensures var a := Spell(AmountAt(c, cut));
      var u := DropSpace(c[cut.e..]);
      c == a + u || c == a + " " + u
  {
    var a := Spell(AmountAt(c, cut));
    var t := c[cut.e..];
    assert c == a + t;
    if t != DropSpace(t) {
      assert a + t == a + " " + DropSpace(t);
    }
  }

  /** The text is the captured amount, then what `\s*` took, then the unit. */
  lemma MatchAmountSound(c: string)
    requires IsClean(c) && MatchAmount(c).Some?
    ensures var Split(a, u) := MatchAmount(c).value; c == Spell(a) + u || c == Spell(a) + " " + u
  {
    CutSound(c, MatchCut(c).value);
  }

  /** The match fails only on text that does not start with a digit, or is a single character. */
  lemma MatchAmountFails(c: string)
    requires IsClean(c)
    ensures MatchAmount(c).None? <==> (c == [] || !IsDigit(c[0]) || |c| == 1)
  {
  }

  /** After a whole number followed by something other than a digit or " N/", the engine cuts after the number. */
  lemma MatchCutWhole(c: string, d: nat)
    requires 0 < d < |c| && !IsDigit(c[d])
    requires forall k :: 0 <= k < d ==> IsDigit(c[k])
    requires c[d] == ' ' ==> d + 1 < |c| && !IsDigit(c[d + 1])
    ensures MatchCut(c) == Some(WholeCut(d))
  {
    DigitRunExact(c, 0, d);
    if c[d] == ' ' {
      assert DigitRun(c, d + 1) == 0;
    }
  }

  /** After a mixed number followed by something other than a digit, the engine cuts after the denominator. */
  lemma MatchCutMixed(c: string, d: nat, n: nat, m: nat, e: nat)
    requires 0 < d && 0 < n && 0 < m && e == d + 2 + n + m < |c|
    requires forall k :: 0 <= k < d ==> IsDigit(c[k])
    requires c[d] == ' ' && c[d + 1 + n] == '/'
    requires forall k :: d + 1 <= k < d + 1 + n ==> IsDigit(c[k])
    requires forall k :: d + 2 + n <= k < d + 2 + n + m ==> IsDigit(c[k])
    requires !IsDigit(c[d + 2 + n + m])
    ensures MatchCut(c) == Some(MixedCut(d, n, e))
  {
    DigitRunExact(c, 0, d);
    FractionAfterExact(c, d, n, m);
  }

  /** A space, a maximal digit run, '/' and a maximal digit run form the fraction group. */
  lemma FractionAfterExact(c: string, d: nat, n: nat, m: nat)
    requires 0 < n && 0 < m && d + 2 + n + m <= |c|
    requires c[d] == ' ' && c[d + 1 + n] == '/'
    requires forall k :: d + 1 <= k < d + 1 + n ==> IsDigit(c[k])
    requires forall k :: d + 2 + n <= k < d + 2 + n + m ==> IsDigit(c[k])
    requires d + 2 + n + m == |c| || !IsDigit(c[d + 2 + n + m])
    ensures FractionAfter(c, d) == Some((n, m))
  {
    DigitRunExact(c, d + 1, n);
    DigitRunExact(c, d + 2 + n, m);
  }

  /** Where the pieces of a mixed number sit in its text. */
  lemma SpellMixed(w: string, n: string, m: string)
    ensures var s := Spell(Mixed(w, n, m));
      && |s| == |w| + 2 + |n| + |m|
      && s[..|w|] == w && s[|w|] == ' '
      && s[|w| + 1..|w| + 1 + |n|] == n && s[|w| + 1 + |n|] == '/'
      && s[|w| + 2 + |n|..] == m
  {
    var s := Spell(Mixed(w, n, m));
    assert s == ((w + " ") + n + "/") + m;
    assert s[..|w| + 2 + |n|] == (w + " ") + n + "/";
    assert s[..|w| + 1] == w + " ";
  }

  /** How text s + sep + u sits around its two parts. */
  lemma Joined(s: string, sep: string, u: string)
    requires (sep == "" || sep == " ") && u != [] && u[0] != ' '
    ensures var c := s + sep + u;
      && |c| == |s| + |sep| + |u|
      && c[..|s|] == s
      && c[|s|] == (if sep == " " then ' ' else u[0])
      && (sep == " " ==> c[|s| + 1] == u[0])
      && DropSpace(c[|s|..]) == u
  {
    var t := sep + u;
    var c := s + sep + u;
    assert c == s + t;
    assert c[..|s|] == s && c[|s|..] == t;
    assert c[|s|] == t[0];
    if sep == " " {
      assert c[|s| + 1] == t[1] == u[0];
      assert t[1..] == u;
    }
  }

  /** On text D[" "]U, where U does not start with a digit or a space, the engine cuts after D. */
  lemma CutSpelledWhole(dd: string, sep: string, u: string)
    requires AmountOk(Whole(dd)) && (sep == "" || sep == " ")
    requires u != [] && !IsDigit(u[0]) && u[0] != ' '
    ensures var c := dd + sep + u;
      && MatchCut(c) == Some(WholeCut(|dd|))
      && c[..|dd|] == dd
      && DropSpace(c[|dd|..]) == u
  {
    var c := dd + sep + u;
    Joined(dd, sep, u);
    DigitsAt(c, 0, |dd|);
    MatchCutWhole(c, |dd|);
  }

  /** A digit run inside a piece of text. */
  lemma DigitsAt(c: string, i: nat, j: nat)
    requires i <= j <= |c| && IsDigits(c[i..j])
    ensures forall k :: i <= k < j ==> IsDigit(c[k])
  {
    forall k | i <= k < j ensures IsDigit(c[k]) {
      assert c[i..j][k - i] == c[k];
    }
  }

  /** A text that starts with a mixed number and goes on with something other than a digit: the engine cuts after the denominator. */
  lemma CutAfterMixed(c: string, w: string, n: string, m: string, e: nat)
    requires AmountOk(Mixed(w, n, m))
    requires e == |Spell(Mixed(w, n, m))| && e < |c| && c[..e] == Spell(Mixed(w, n, m))
    requires !IsDigit(c[e])
    ensures MatchCut(c) == Some(MixedCut(|w|, |n|, e))
    ensures c[..|w|] == w && c[|w| + 1..|w| + 1 + |n|] == n && c[|w| + 2 + |n|..e] == m
  {
    var s := Spell(Mixed(w, n, m));
    SpellMixed(w, n, m);
    assert c[..|w|] == s[..|w|];
    assert c[|w| + 1..|w| + 1 + |n|] == s[|w| + 1..|w| + 1 + |n|];
    assert c[|w| + 2 + |n|..e] == s[|w| + 2 + |n|..];
    assert c[|w|] == s[|w|] && c[|w| + 1 + |n|] == s[|w| + 1 + |n|];
    DigitsAt(c, 0, |w|);
    DigitsAt(c, |w| + 1, |w| + 1 + |n|);
    DigitsAt(c, |w| + 2 + |n|, e);
    MatchCutMixed(c, |w|, |n|, |m|, e);
  }

  /** The match reads its groups off the cut. */
  lemma MatchAmountOfCut(c: string, cut: Cut)
    requires IsClean(c) && MatchCut(c) == Some(cut)
    ensures MatchAmount(c) == Some(Split(AmountAt(c, cut), DropSpace(c[cut.e..])))
  {
  }

  /**
    On text of the form D[" " N "/" M][" "]U, where U does not start with a
    digit or a space, the match captures exactly the amount and U.
  */
  lemma MatchAmountComplete(a: AmountText, sep: string, u: string)
    requires AmountOk(a) && (sep == "" || sep == " ")
    requires u != [] && !IsDigit(u[0]) && u[0] != ' '
    requires IsClean(Spell(a) + sep + u)
    ensures MatchAmount(Spell(a) + sep + u) == Some(Split(a, u))
  {
    var c := Spell(a) + sep + u;
    match a
    case Whole(dd) =>
      CutSpelledWhole(dd, sep, u);
      MatchAmountOfCut(c, WholeCut(|dd|));
    case Mixed(w, n, m) =>
      Joined(Spell(a), sep, u);
      CutAfterMixed(c, w, n, m, |Spell(a)|);
      var cut := MixedCut(|w|, |n|, |Spell(a)|);
      MatchAmountOfCut(c, cut);
      assert AmountAt(c, cut) == a;
  }

  // ---------------------------------------------------------------------------
  // Values: `Number(whole) + Number(num) / Number(denom)` and `Number(amount)`
  // ---------------------------------------------------------------------------

  /**
    A JavaScript number as the parser can produce it: a finite value, or the
    `Infinity` and `NaN` that a zero denominator gives.
  */
  datatype JsNumber = Finite(x: real) | Infinity | NaN

  /** The value of an amount: a digit run is its integer, a mixed number its whole part plus the fraction. */
  function AmountValue(a: AmountText): (v: JsNumber)
    requires AmountOk(a)
    ensures v.Finite? ==> v.x >= 0.0
    ensures a.Whole? ==> v == Finite(DigitsValue(a.digits) as real)
    ensures a.Mixed? ==>
      var w, n, m := DigitsValue(a.whole), DigitsValue(a.num), DigitsValue(a.denom);
      && (v.Infinity? <==> m == 0 && n != 0)
      && (v.NaN? <==> m == 0 && n == 0)
      && (m != 0 ==> v == Finite(w as real + Fraction(n, m)))
  {
    match a
    case Whole(d) => Finite(DigitsValue(d) as real)
    case Mixed(w, n, m) => MixedValue(DigitsValue(w), DigitsValue(n), DigitsValue(m))
  }

  /** `Number(whole) + Number(num) / Number(denom)`: a zero denominator gives Infinity, or NaN for `0/0`. */
  function MixedValue(whole: nat, num: nat, denom: nat): JsNumber
  {
    if denom != 0 then Finite(whole as real + Fraction(num, denom))
    else if num != 0 then Infinity
    else NaN
  }

  /** `num / denom` with a non-zero denominator: the non-negative number that gives `num` when multiplied by `denom`. */
  function Fraction(num: nat, denom: nat): (f: real)
    requires denom != 0
    ensures f >= 0.0 && f * denom as real == num as real
  {
    num as real / denom as real
  }

  /** What `parseAmount` returns: the amount's value and the unit text. */
  datatype Parsed = Parsed(value: JsNumber, unit: string)

  /** `parseAmount`: clean the text, match it, evaluate the amount, lower-case and trim the unit. */
  function ParseAmount(measure: string): (r: Option<Parsed>)
    ensures r.None? <==> MatchAmount(Clean(measure)).None?
    ensures r.Some? ==> r.value.unit != [] && forall i :: 0 <= i < |r.value.unit| ==> !IsUpper(r.value.unit[i])
  {
    var c := Clean(measure);
    match MatchAmount(c)
    case None => None
    case Some(Split(a, u)) =>
      UnitIsTrimmed(c);
      Some(Parsed(AmountValue(a), Trim(Lower(u))))
  }

  /** The unit group of clean text has no whitespace at its ends, so `trim` leaves its lower-cased form alone. */
  lemma UnitIsTrimmed(c: string)
    requires IsClean(c) && MatchAmount(c).Some?
    ensures Trim(Lower(MatchAmount(c).value.unit)) == Lower(MatchAmount(c).value.unit)
  {
    var cut := MatchCut(c).value;
    SuffixEnds(c, cut.e);
    LowerTrimmed(DropSpace(c[cut.e..]));
  }

  /** A suffix of clean text, less its leading space, has no whitespace at its ends. */
  lemma SuffixEnds(c: string, e: nat)
    requires IsClean(c) && e < |c|
    ensures var u := DropSpace(c[e..]); u != [] && !IsSpace(u[0]) && !IsSpace(u[|u| - 1])
  {
    var t := c[e..];
    var u := DropSpace(t);
    CleanSuffix(c, e);
    SingleSpacedAt(c, e);
    SingleSpacedAt(c, |c| - 1);
    if t[0] == ' ' {
      SingleSpacedAt(c, e + 1);
      assert u[0] == c[e + 1];
    } else {
      assert u[0] == c[e];
    }
    assert u[|u| - 1] == c[|c| - 1];
  }

  /** Lower-casing keeps a text without whitespace at its ends free of it. */
  lemma LowerTrimmed(u: string)
    requires u != [] && !IsSpace(u[0]) && !IsSpace(u[|u| - 1])
    ensures Trim(Lower(u)) == Lower(u)
  {
    var l := Lower(u);
    LowerCharSpace(u[0]);
    LowerCharSpace(u[|u| - 1]);
    assert !IsSpace(l[0]) && !IsSpace(l[|l| - 1]);
    TrimOfTrimmed(l);
  }

  // ---------------------------------------------------------------------------
  // Conversion: `convertMeasurement`
  // ---------------------------------------------------------------------------

  /** `Math.round` on a non-negative value: the nearest integer, halves rounded up. */
  function Round(x: real): (r: nat)
    requires x >= 0.0
    ensures r as real - 0.5 <= x < r as real + 0.5
  {
    (x + 0.5).Floor
  }

  /** A rounded JavaScript number. */
  datatype Count = Exact(n: nat) | Infinite | NotANumber

  /** `Math.round` on the numbers the converter meets. */
  function RoundNumber(v: JsNumber): (c: Count)
    requires v.Finite? ==> v.x >= 0.0
    ensures v.Finite? <==> c.Exact?
    ensures v.Infinity? <==> c.Infinite?
    ensures v.Finite? ==> c.n as real - 0.5 <= v.x < c.n as real + 0.5
  {
    match v
    case Finite(x) => Exact(Round(x))
    case Infinity => Infinite
    case NaN => NotANumber
  }

  /** `value * factor` for a positive factor. */
  function Scale(v: JsNumber, factor: real): (r: JsNumber)
    requires factor > 0.0 && (v.Finite? ==> v.x >= 0.0)
    ensures r.Finite? <==> v.Finite?
    ensures r.Infinity? <==> v.Infinity?
    ensures r.Finite? ==> r.x == v.x * factor && r.x >= 0.0
  {
    match v
    case Finite(x) => Finite(x * factor)
    case Infinity => Infinity
    case NaN => NaN
  }

  /** The converted amount before it is turned into text. */
  datatype Quantity = Quantity(count: Count, unit: string)

  /** Every family scales by a positive factor. */
  lemma FactorsPositive(f: UnitFamily)
    requires f in Units
    ensures f.mlFactor > 0.0
  {
  }

  /** Lines 91-99: a rounded number of millilitres, moved to centilitres from 10 on and to decilitres from 100 on. */
  function Rescale(r: nat): (q: Quantity)
    ensures q.count.Exact? && q.unit in {"ml", "cl", "dl"}
    ensures q.unit == "ml" <==> r < 10
    ensures q.unit == "cl" <==> 10 <= r < 100
    ensures q.unit == "ml" ==> q.count.n == r
    ensures q.unit == "cl" ==> q.count.n * 10 - 5 <= r < q.count.n * 10 + 5
    ensures q.unit == "dl" ==> q.count.n * 100 - 50 <= r < q.count.n * 100 + 50
  {
    if r >= 100 then Quantity(Exact(Round(r as real / 100.0)), "dl")
    else if r >= 10 then Quantity(Exact(Round(r as real / 10.0)), "cl")
    else Quantity(Exact(r), "ml")
  }

  /**
    Lines 83-99: the family's conversion and `Math.round`, then in the
    metric system the rescaling. `Infinity` is at least 100 and stays
    `Infinity` when divided and rounded; `NaN` fails both comparisons.
  */
  function Convert(v: JsNumber, f: UnitFamily, system: System): (q: Quantity)
    requires f.mlFactor > 0.0 && (v.Finite? ==> v.x >= 0.0)
    ensures system == Imperial ==> q == Quantity(RoundNumber(v), f.imperial)
    ensures system == Metric && v.Finite? ==> q == Rescale(Round(v.x * f.mlFactor))
    ensures system == Metric && v.Infinity? ==> q == Quantity(Infinite, "dl")
    ensures system == Metric && v.NaN? ==> q == Quantity(NotANumber, "ml")
  {
    if system == Imperial then
      Quantity(RoundNumber(v), f.imperial)
    else
      var scaled := Scale(v, f.mlFactor);
      var c := RoundNumber(scaled);
      assert v.Finite? ==> scaled == Finite(v.x * f.mlFactor) && c == Exact(Round(v.x * f.mlFactor));
      if c.Infinite? then Quantity(Infinite, "dl")
      else if c.NotANumber? then Quantity(NotANumber, "ml")
      else Rescale(c.n)
  }

  /** The text of a rounded number in a template literal: never empty, and without a space. */
  function ShowCount(c: Count): (s: string)
    ensures s != [] && Lacks(s, ' ')
  {
    match c
    case Exact(n) => NatToString(n)
    case Infinite => "Infinity"
    case NotANumber => "NaN"
  }

  /** `${value} ${unit}`. */
  function ShowQuantity(q: Quantity): (s: string)
    ensures |s| > |q.unit|
  {
    ShowCount(q.count) + " " + q.unit
  }

  /** Different counts are shown differently. */
  lemma ShowCountInjective(a: Count, b: Count)
    requires ShowCount(a) == ShowCount(b)
    ensures a == b
  {
    match a
    case Exact(m) =>
      assert IsDigit(ShowCount(a)[0]);
      if b.Exact? {
        NatToStringInjective(m, b.n);
      } else {
        assert false;
      }
    case Infinite =>
      assert ShowCount(a)[0] == 'I';
      if !b.Infinite? {
        assert false;
      }
    case NotANumber =>
      assert ShowCount(a)[0] == 'N';
      if !b.NotANumber? {
        assert false;
      }
  }

  /** The shown quantity reads back: the text before the first space is the count, the rest is the unit. */
  lemma ShowQuantityInjective(p: Quantity, q: Quantity)
    requires ShowQuantity(p) == ShowQuantity(q)
    ensures p == q
  {
    var a, b := ShowCount(p.count), ShowCount(q.count);
    assert a + " " + p.unit == a + (" " + p.unit);
    assert b + " " + q.unit == b + (" " + q.unit);
    SplitAtChar(' ', a, " " + p.unit, b, " " + q.unit);
    assert p.unit == (" " + p.unit)[1..] && q.unit == (" " + q.unit)[1..];
    ShowCountInjective(p.count, q.count);
  }

  /**
    `convertMeasurement`: the empty string for a missing or empty measure,
    the measure itself, as given, when it does not parse or names no known
    unit, and the converted quantity otherwise.
  */
  function ConvertMeasurement(measure: Option<string>, system: System): (r: string)
    ensures r == [] <==> measure.None? || measure.value == []
  {
    if measure.None? || measure.value == [] then []
    else
      var parsed := ParseAmount(measure.value);
      if parsed.None? then measure.value
      else
        var family := FindUnit(parsed.value.unit);
        if family.None? then measure.value
        else
          FactorsPositive(family.value);
          ShowQuantity(Convert(parsed.value.value, family.value, system))
  }

  /** Fail-soft: text that does not parse, or whose unit is in no family, comes back as given, not cleaned. */
  lemma ConvertMeasurementFailSoft(s: string, system: System)
    requires ParseAmount(s).None? || FindUnit(ParseAmount(s).value.unit).None?
    ensures ConvertMeasurement(Some(s), system) == s
  {
  }

  /**
    Text whose cleaned form is D[" " N "/" M][" "]U parses to the value of
    the amount and the lower-cased U, whenever U does not start with a digit
    or a space.
  */
  lemma ParseRecognised(s: string, a: AmountText, sep: string, u: string)
    requires AmountOk(a) && (sep == "" || sep == " ")
    requires u != [] && !IsDigit(u[0]) && u[0] != ' '
    requires Clean(s) == Spell(a) + sep + u
    ensures ParseAmount(s) == Some(Parsed(AmountValue(a), Lower(u)))
  {
    MatchAmountComplete(a, sep, u);
    UnitIsTrimmed(Clean(s));
  }

  /** Text of the recognised form converts: the amount's value, in the family its lower-cased unit names. */
  lemma ConvertRecognised(s: string, a: AmountText, sep: string, u: string, j: nat, system: System)
    requires AmountOk(a) && (sep == "" || sep == " ")
    requires u != [] && !IsDigit(u[0]) && u[0] != ' '
    requires Clean(s) == Spell(a) + sep + u
    requires j < |Units| && Lower(u) in Units[j].aliases
    ensures ConvertMeasurement(Some(s), system) == ShowQuantity(Convert(AmountValue(a), Units[j], system))
  {
    ParseRecognised(s, a, sep, u);
    FindUnitSelects(Lower(u), j);
    assert s != [];
  }

  /** Only text of the recognised form converts; anything else comes back exactly as given. */
  lemma ConvertOnlyRecognised(s: string, system: System)
    ensures ConvertMeasurement(Some(s), system) != s ==>
      && MatchAmount(Clean(s)).Some?
      && var Split(a, u) := MatchAmount(Clean(s)).value;
      && AmountOk(a)
      && (Clean(s) == Spell(a) + u || Clean(s) == Spell(a) + " " + u)
      && exists j :: 0 <= j < |Units| && Lower(u) in Units[j].aliases
  {
    if ConvertMeasurement(Some(s), system) != s {
      var c := Clean(s);
      MatchAmountSound(c);
      UnitIsTrimmed(c);
      var j := FindUnitFrom(Lower(MatchAmount(c).value.unit), 0).value;
      assert 0 <= j < |Units|;
    }
  }

  // ---------------------------------------------------------------------------
  // `formatMeasuredItem`: /^(.*?\b(?:oz|cup|...|teaspoon)\b)\s+(.+)$/i
  // ---------------------------------------------------------------------------

  /** The unit words of `formatMeasuredItem`, in the order the alternation tries them. */
  const MeasureWords: seq<string> := ["oz", "cup", "cups", "spoon", "tsp", "tbsp", "tablespoon", "teaspoon"]

  /** The character at `i` exists and is a word character. */
  predicate WordCharAt(s: string, i: int) {
    0 <= i < |s| && IsWordChar(s[i])
  }

  /** `\b` at position `i`: a word character on exactly one side. */
  predicate BoundaryAt(s: string, i: int) {
    WordCharAt(s, i - 1) != WordCharAt(s, i)
  }

  /** Word `w` stands at `p` as a whole word; under the `i` flag letters match in either case. */
  predicate WordAt(s: string, p: nat, w: string) {
    && p + |w| <= |s|
    && (forall i :: 0 <= i < |w| ==> LowerChar(s[p + i]) == w[i])
    && BoundaryAt(s, p) && BoundaryAt(s, p + |w|)
  }

  /** `\s+(.+)$` from `q` with `\s+` taking `k` characters: whitespace, then a non-empty rest on one line. */
  predicate NameAfter(s: string, q: nat, k: nat) {
    && 1 <= k && q + k < |s|
    && (forall i :: q <= i < q + k ==> IsSpace(s[i]))
    && (forall i :: q + k <= i < |s| ==> !IsLineTerminator(s[i]))
  }

  /** The lazy `.*?` takes the text before `p`, which holds no line terminator. */
  predicate OneLineBefore(s: string, p: nat) {
    forall i :: 0 <= i < p && i < |s| ==> !IsLineTerminator(s[i])
  }

  /** The whole pattern matches with the unit word `MeasureWords[j]` at `p` and `k` characters of whitespace after it. */
  predicate MeasureAt(s: string, p: nat, j: nat, k: nat) {
    && j < |MeasureWords|
    && OneLineBefore(s, p)
    && WordAt(s, p, MeasureWords[j])
    && NameAfter(s, p + |MeasureWords[j]|, k)
  }

  /**
    The match a backtracking engine reports: the lazy `.*?` makes the word's
    position the leftmost one, the alternation takes the first word in
    order, and the greedy `\s+` takes as much whitespace as it can.
  */
  ghost predicate FirstMeasureAt(s: string, p: nat, j: nat, k: nat) {
    && MeasureAt(s, p, j, k)
    && (forall p': nat, j': nat, k': nat :: p' < p ==> !MeasureAt(s, p', j', k'))
    && (forall j': nat, k': nat :: j' < j ==> !MeasureAt(s, p, j', k'))
    && (forall k': nat :: k' > k ==> !MeasureAt(s, p, j, k'))
  }

  /** The length of the whitespace run at `q`: the most `\s+` can take. */
  function SpaceRun(s: string, q: nat): (n: nat)
    requires q <= |s|
    ensures q + n <= |s|
    ensures forall i :: q <= i < q + n ==> IsSpace(s[i])
    ensures q + n == |s| || !IsSpace(s[q + n])
    decreases |s| - q
  {
    if q < |s| && IsSpace(s[q]) then 1 + SpaceRun(s, q + 1) else 0
  }

  /** `\s+` with backtracking: the longest whitespace prefix of length at most `k` after which `(.+)$` matches. */
  function GreedyName(s: string, q: nat, k: nat): (r: Option<nat>)
    requires q + k <= |s|
    ensures r.Some? ==> r.value <= k && NameAfter(s, q, r.value)
    ensures r.Some? ==> forall k': nat :: r.value < k' <= k ==> !NameAfter(s, q, k')
    ensures r.None? ==> forall k': nat :: k' <= k ==> !NameAfter(s, q, k')
  {
    if k == 0 then None
    else if NameAfter(s, q, k) then Some(k)
    else GreedyName(s, q, k - 1)
  }

  /** Beyond the whitespace run, `\s+` cannot reach. */
  lemma NameAfterWithinRun(s: string, q: nat, k: nat)
    requires q <= |s| && NameAfter(s, q, k)
    ensures k <= SpaceRun(s, q)
  {
  }

  /** What the engine finds with word `j` at `p`: the whitespace count. */
  function TryWord(s: string, p: nat, j: nat): (r: Option<nat>)
    requires j < |MeasureWords| && OneLineBefore(s, p)
    ensures r.Some? ==> MeasureAt(s, p, j, r.value) && forall k: nat :: k > r.value ==> !MeasureAt(s, p, j, k)
    ensures r.None? ==> forall k: nat :: !MeasureAt(s, p, j, k)
  {
    var w := MeasureWords[j];
    if !WordAt(s, p, w) then None
    else
      var q := p + |w|;
      var g := GreedyName(s, q, SpaceRun(s, q));
      if g.None? then
        forall k: nat | NameAfter(s, q, k) ensures false { NameAfterWithinRun(s, q, k); }
        None
      else
        forall k: nat | k > g.value && NameAfter(s, q, k) ensures false { NameAfterWithinRun(s, q, k); }
        g
  }

  /** The alternation at `p`, from word `j` on: the first word that lets the rest match. */
  function TryWords(s: string, p: nat, j: nat): (r: Option<(nat, nat)>)
    requires j <= |MeasureWords| && OneLineBefore(s, p)
    ensures r.Some? ==> j <= r.value.0 && FirstWordFrom(s, p, j, r.value.0, r.value.1)
    ensures r.None? ==> forall j': nat, k: nat :: j <= j' ==> !MeasureAt(s, p, j', k)
    decreases |MeasureWords| - j
  {
    if j == |MeasureWords| then None
    else
      var k := TryWord(s, p, j);
      if k.Some? then Some((j, k.value))
      else
        var r := TryWords(s, p, j + 1);
        if r.Some? then FirstWordStep(s, p, j, r.value.0, r.value.1); r else r
  }

  /** A word that cannot match at `p` may be put in front of the words tried. */
  lemma FirstWordStep(s: string, p: nat, j0: nat, j: nat, k: nat)
    requires forall k': nat :: !MeasureAt(s, p, j0, k')
    requires FirstWordFrom(s, p, j0 + 1, j, k)
    ensures FirstWordFrom(s, p, j0, j, k)
  {
  }

  /** Word `j` at `p` is the first from `j0` on that matches, with the greedy whitespace count `k`. */
  ghost predicate FirstWordFrom(s: string, p: nat, j0: nat, j: nat, k: nat) {
    && MeasureAt(s, p, j, k)
    && (forall j': nat, k': nat :: j0 <= j' < j ==> !MeasureAt(s, p, j', k'))
    && (forall k': nat :: k' > k ==> !MeasureAt(s, p, j, k'))
  }

  /** Where the match of `formatMeasuredItem` lies: the word's position and index, and the whitespace count. */
  datatype ItemMatch = ItemMatch(start: nat, word: nat, spaces: nat)

  /** The lazy `.*?`: positions are tried from `p` on, and none beyond a line terminator. */
  function MatchItemFrom(s: string, p: nat): (r: Option<ItemMatch>)
    requires p <= |s| && OneLineBefore(s, p)
    ensures r.Some? ==> p <= r.value.start
    ensures r.Some? ==> FirstWordFrom(s, r.value.start, 0, r.value.word, r.value.spaces)
    ensures r.Some? ==> forall p': nat, j: nat, k: nat :: p <= p' < r.value.start ==> !MeasureAt(s, p', j, k)
    ensures r.None? ==> forall p': nat, j: nat, k: nat :: p <= p' ==> !MeasureAt(s, p', j, k)
    decreases |s| - p
  {
    var here := TryWords(s, p, 0);
    if here.Some? then Some(ItemMatch(p, here.value.0, here.value.1))
    else if p == |s| || IsLineTerminator(s[p]) then
      forall p': nat, j: nat, k: nat | p < p' ensures !MeasureAt(s, p', j, k) {
        if p < |s| {
          assert !OneLineBefore(s, p');
        }
      }
      None
    else
      var r := MatchItemFrom(s, p + 1);
      if r.Some? then NoMatchBefore(s, p, r.value.start); r else NoMatchFrom(s, p); r
  }

  /** No match at `p` and none from `p + 1` up to `q` means none from `p` up to `q`. */
  lemma NoMatchBefore(s: string, p: nat, q: nat)
    requires forall j: nat, k: nat :: !MeasureAt(s, p, j, k)
    requires forall p': nat, j: nat, k: nat :: p + 1 <= p' < q ==> !MeasureAt(s, p', j, k)
    ensures forall p': nat, j: nat, k: nat :: p <= p' < q ==> !MeasureAt(s, p', j, k)
  {
  }

  /** No match at `p` and none from `p + 1` on means none from `p` on. */
  lemma NoMatchFrom(s: string, p: nat)
    requires forall j: nat, k: nat :: !MeasureAt(s, p, j, k)
    requires forall p': nat, j: nat, k: nat :: p + 1 <= p' ==> !MeasureAt(s, p', j, k)
    ensures forall p': nat, j: nat, k: nat :: p <= p' ==> !MeasureAt(s, p', j, k)
  {
  }

  /** The match of `formatMeasuredItem`'s pattern, if any: the one a backtracking engine reports. */
  function MatchItem(item: string): (r: Option<ItemMatch>)
    ensures r.Some? ==> FirstMeasureAt(item, r.value.start, r.value.word, r.value.spaces)
    ensures r.None? <==> forall p: nat, j: nat, k: nat :: !MeasureAt(item, p, j, k)
  {
    MatchItemFrom(item, 0)
  }

  /** Only one match can be the first. */
  lemma FirstMeasureUnique(s: string, p: nat, j: nat, k: nat, p': nat, j': nat, k': nat)
    requires FirstMeasureAt(s, p, j, k) && FirstMeasureAt(s, p', j', k')
    ensures p == p' && j == j' && k == k'
  {
    assert !(p < p') && !(p' < p);
    assert !(j < j') && !(j' < j);
  }

  /**
    `formatMeasuredItem`: the measure the pattern finds at the start of the
    item, trimmed and converted, then a space and the rest of the item as it
    was; the item itself when the pattern does not match.
  */
  function FormatMeasuredItem(item: string, system: System): (r: string)
    ensures (forall p: nat, j: nat, k: nat :: !MeasureAt(item, p, j, k)) ==> r == item
  {
    match MatchItem(item)
    case None => item
    case Some(m) => FormatAround(item, m, system)
  }

  /** The match names a unit word and ends inside the item. */
  predicate MatchFits(item: string, m: ItemMatch) {
    m.word < |MeasureWords| && m.start + |MeasureWords[m.word]| + m.spaces <= |item|
  }

  /**
    The item around a match: the text up to the end of the unit word,
    trimmed and converted, then a space, then the rest of the item after the
    whitespace, unchanged.
  */
  function FormatAround(item: string, m: ItemMatch, system: System): string
    requires MatchFits(item, m)
  {
    var q := m.start + |MeasureWords[m.word]|;
    ConvertMeasurement(Some(Trim(item[..q])), system) + " " + item[q + m.spaces..]
  }

  /**
    With a match, the result is the converted, trimmed text up to and including
    the first unit word, a space, and the rest after the whitespace, unchanged.
  */
  lemma FormatMeasuredItemConverts(item: string, system: System, p: nat, j: nat, k: nat)
    requires FirstMeasureAt(item, p, j, k)
    ensures var q := p + |MeasureWords[j]|;
      FormatMeasuredItem(item, system) == ConvertMeasurement(Some(Trim(item[..q])), system) + " " + item[q + k..]
  {
    MatchItemIs(item, p, j, k);
    assert FormatMeasuredItem(item, system) == FormatAround(item, ItemMatch(p, j, k), system);
    FormatAroundAt(item, p, j, k, system);
  }

  /** Formatting around the match at `p` with word `j` and `k` spaces cuts the item at the end of the word and after the spaces. */
  lemma FormatAroundAt(item: string, p: nat, j: nat, k: nat, system: System)
    requires MatchFits(item, ItemMatch(p, j, k))
    ensures var q := p + |MeasureWords[j]|;
      FormatAround(item, ItemMatch(p, j, k), system) == ConvertMeasurement(Some(Trim(item[..q])), system) + " " + item[q + k..]
  {
  }

  /** The first match is the one the matcher reports. */
  lemma MatchItemIs(item: string, p: nat, j: nat, k: nat)
    requires FirstMeasureAt(item, p, j, k)
    ensures MatchItem(item) == Some(ItemMatch(p, j, k))
  {
    var m := MatchItem(item).value;
    FirstMeasureUnique(item, p, j, k, m.start, m.word, m.spaces);
  }
}
