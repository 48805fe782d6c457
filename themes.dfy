/**
  The colour themes of the app and `applyTheme`, which writes every entry of
  the chosen theme into the document's style as a CSS custom property whose
  name is the entry's camelCase key in `--kebab-case`.
*/
module Themes {
  import opened Text

  // ---------------------------------------------------------------------------
  // The variable name: `--${key.replace(/([A-Z])/g, "-$1").toLowerCase()}`
  // ---------------------------------------------------------------------------

  /** The number of ASCII capitals in `s`. */
  function UpperCount(s: string): nat
  {
    if s == [] then 0 else (if IsUpper(s[0]) then 1 else 0) + UpperCount(s[1..])
  }

  /** `replace(/([A-Z])/g, "-$1")`: a hyphen before every capital, everything else kept. */
  function Hyphenate(key: string): (r: string)
    ensures |r| == |key| + UpperCount(key)
    ensures key != [] && !IsUpper(key[0]) ==> r != [] && r[0] == key[0]
  {
    if key == [] then []
    else if IsUpper(key[0]) then ['-', key[0]] + Hyphenate(key[1..])
    else [key[0]] + Hyphenate(key[1..])
  }

  /**
    The CSS variable an entry with key `key` is written to: it starts with
    `--`, has no capitals, and is two characters longer than the key plus
    one per capital.
  */
  function CssVarName(key: string): (r: string)
    ensures |r| == 2 + |key| + UpperCount(key)
    ensures r[..2] == "--"
    ensures forall i :: 0 <= i < |r| ==> !IsUpper(r[i])
  {
    "--" + Lower(Hyphenate(key))
  }

  /** No hyphen in `s`: true of every key of the themes. */
  predicate NoHyphen(s: string) {
    forall i :: 0 <= i < |s| ==> s[i] != '-'
  }

  /** The capital a lower-case ASCII letter comes from. */
  function UpperChar(c: char): (r: char)
    ensures IsUpper(c) || !IsLowerLetter(c) ==> r == c
  {
    if IsLowerLetter(c) then (c as int - 32) as char else c
  }

  /** Reads a key back from the text after `--`: a hyphen and a letter stand for that letter's capital. */
  function Unkebab(s: string): string
  {
    if s == [] then []
    else if s[0] == '-' && |s| >= 2 then [UpperChar(s[1])] + Unkebab(s[2..])
    else [s[0]] + Unkebab(s[1..])
  }

  /** A key without hyphens is read back from its variable. */
  lemma {:induction false} UnkebabKebab(key: string)
    requires NoHyphen(key)
    ensures Unkebab(CssVarName(key)[2..]) == key
  {
    if key != [] {
      assert NoHyphen(key[1..]) by {
        forall i | 0 <= i < |key| - 1 ensures key[1..][i] != '-' { assert key[1..][i] == key[i + 1]; }
      }
      UnkebabKebab(key[1..]);
      var rest := Lower(Hyphenate(key[1..]));
      assert CssVarName(key[1..])[2..] == rest;
      if IsUpper(key[0]) {
        LowerAppend(['-', key[0]], Hyphenate(key[1..]));
        assert Lower(['-', key[0]]) == ['-', LowerChar(key[0])];
        var k := ['-', LowerChar(key[0])] + rest;
        assert CssVarName(key)[2..] == k;
        assert k[2..] == rest;
        assert Unkebab(k) == [UpperChar(LowerChar(key[0]))] + Unkebab(rest);
      } else {
        LowerAppend([key[0]], Hyphenate(key[1..]));
        assert Lower([key[0]]) == [key[0]];
        var k := [key[0]] + rest;
        assert CssVarName(key)[2..] == k;
        assert k[1..] == rest;
      }
    }
  }

  /** Keys without hyphens have different variables when they differ. */
  lemma CssVarNameInjective(a: string, b: string)
    requires NoHyphen(a) && NoHyphen(b) && a != b
    ensures CssVarName(a) != CssVarName(b)
  {
    UnkebabKebab(a);
    UnkebabKebab(b);
  }

  /** No ASCII capital in `s`. */
  predicate NoUpper(s: string) {
    forall i :: 0 <= i < |s| ==> !IsUpper(s[i])
  }

  /** A capitalised word: a capital, then no capital. */
  predicate CapitalWord(w: string) {
    w != [] && IsUpper(w[0]) && NoUpper(w[1..])
  }

  /** Hyphenating distributes over concatenation. */
  lemma {:induction false} HyphenateAppend(a: string, b: string)
    ensures Hyphenate(a + b) == Hyphenate(a) + Hyphenate(b)
  {
    if a != [] {
      assert (a + b)[1..] == a[1..] + b;
      HyphenateAppend(a[1..], b);
    } else {
      assert a + b == b;
    }
  }

  /** Text without capitals is left alone. */
  lemma {:induction false} HyphenateNoUpper(s: string)
    requires NoUpper(s)
    ensures Hyphenate(s) == s
  {
    if s != [] {
      assert NoUpper(s[1..]) by {
        forall i | 0 <= i < |s| - 1 ensures !IsUpper(s[1..][i]) { assert s[1..][i] == s[i + 1]; }
      }
      HyphenateNoUpper(s[1..]);
    }
  }

  /** A capitalised word becomes a hyphen and the word. */
  lemma CapitalWordHyphenated(w: string)
    requires CapitalWord(w)
    ensures Hyphenate(w) == "-" + w
  {
    HyphenateNoUpper(w[1..]);
    assert Hyphenate(w) == ['-', w[0]] + w[1..];
    assert ['-', w[0]] + w[1..] == "-" + w;
  }

  /** A key without capitals is its own variable name after `--`. */
  lemma FirstWord(a: string)
    requires NoUpper(a)
    ensures CssVarName(a) == "--" + a
  {
    HyphenateNoUpper(a);
    assert Lower(a) == a;
  }

  /** Appending a capitalised word to a key appends a hyphen and the word, lower-cased, to its variable. */
  lemma AppendWord(k: string, w: string)
    requires CapitalWord(w)
    ensures CssVarName(k + w) == CssVarName(k) + "-" + Lower(w)
  {
    HyphenateAppend(k, w);
    CapitalWordHyphenated(w);
    LowerAppend(Hyphenate(k), "-" + w);
    LowerAppend("-", w);
    assert Lower("-") == "-";
  }

  // ---------------------------------------------------------------------------
  // The theme tables
  // ---------------------------------------------------------------------------

  datatype ThemeName = Light | Dark | Halloween

  /** A theme's entries in the order `Object.entries` lists them. */
  type Theme = seq<(string, string)>

  /** The keys every theme defines, in their order. */
  const ThemeKeys: seq<string> := [
    "bgColor", "textColor", "primaryColor", "primaryColorLight", "primaryColorDark", "secondaryColor",
    "borderColor", "focusColor", "focusShadowColor", "cardShadow", "successColor"
  ]

  /** The entries of a theme from its keys and values, position by position. */
  function Pair(keys: seq<string>, values: seq<string>): Theme
    requires |keys| == |values|
  {
    seq(|keys|, i requires 0 <= i < |keys| => (keys[i], values[i]))
  }

  const LightTheme: Theme := Pair(ThemeKeys, [
    "#ffffff", "#333333", "#250524", "#4a0a48", "#120212", "#666666",
    "#dddddd", "#007bff", "rgba(0, 123, 255, 0.25)", "0 2px 8px rgba(0, 0, 0, 0.1)", "#4caf50"
  ])

  const DarkTheme: Theme := Pair(ThemeKeys, [
    "#1a202c", "#ffffff", "#63b3ed", "#90cdf4", "#2b6cb0", "#a0aec0",
    "#2d3748", "#63b3ed", "rgba(99, 179, 237, 0.25)", "0 2px 8px rgba(0, 0, 0, 0.3)", "#68d391"
  ])

  const HalloweenTheme: Theme := Pair(ThemeKeys, [
    "#160B00", "#FFF3E0", "#FF6D00", "#FF9E40", "#E65100", "#B388FF",
    "#4A148C", "#FF6D00", "rgba(255, 109, 0, 0.25)", "0 2px 8px rgba(0, 0, 0, 0.5)", "#00C853"
  ])

  /** `themes[themeName]`. */
  function ThemeOf(name: ThemeName): (t: Theme)
    ensures |t| == |ThemeKeys| == 11
    ensures forall i :: 0 <= i < |t| ==> t[i].0 == ThemeKeys[i]
  {
    match name
    case Light => LightTheme
    case Dark => DarkTheme
    case Halloween => HalloweenTheme
  }

  /** All keys of the themes are different and none holds a hyphen. */
  lemma ThemeKeysDistinct()
    ensures forall i, j :: 0 <= i < j < |ThemeKeys| ==> ThemeKeys[i] != ThemeKeys[j]
    ensures forall i :: 0 <= i < |ThemeKeys| ==> NoHyphen(ThemeKeys[i])
  {
  }

  /** The eleven keys give eleven different variables. */
  lemma ThemeVarsDistinct()
    ensures forall i, j :: 0 <= i < j < |ThemeKeys| ==> CssVarName(ThemeKeys[i]) != CssVarName(ThemeKeys[j])
  {
    ThemeKeysDistinct();
    forall i, j | 0 <= i < j < |ThemeKeys| ensures CssVarName(ThemeKeys[i]) != CssVarName(ThemeKeys[j]) {
      CssVarNameInjective(ThemeKeys[i], ThemeKeys[j]);
    }
  }

  lemma ColorWord() ensures CapitalWord("Color") && Lower("Color") == "color" {}
  lemma DarkWord() ensures CapitalWord("Dark") && Lower("Dark") == "dark" {}

  /** The variable of a key of two words, `a` without capitals and `b` capitalised. */
  lemma TwoWords(key: string, name: string, a: string, b: string, lb: string)
    requires NoUpper(a) && CapitalWord(b) && Lower(b) == lb
    requires key == a + b && name == "--" + a + "-" + lb
    ensures CssVarName(key) == name
  {
    FirstWord(a);
    AppendWord(a, b);
  }

  /** The variable of a key of three words. */
  lemma ThreeWords(key: string, name: string, a: string, b: string, c: string, lb: string, lc: string)
    requires NoUpper(a) && CapitalWord(b) && CapitalWord(c) && Lower(b) == lb && Lower(c) == lc
    requires key == a + b + c && name == "--" + a + "-" + lb + "-" + lc
    ensures CssVarName(key) == name
  {
    TwoWords(a + b, "--" + a + "-" + lb, a, b, lb);
    AppendWord(a + b, c);
  }

  /** The variable the components read the background colour from. */
  lemma BgColorVar()
    ensures CssVarName("bgColor") == "--bg-color"
  {
    ColorWord();
    assert "bgColor" == "bg" + "Color";
    assert "--bg-color" == "--" + "bg" + "-" + "color";
    TwoWords("bgColor", "--bg-color", "bg", "Color", "color");
  }

  /** The variable the components read the dark primary colour from. */
  lemma PrimaryColorDarkVar()
    ensures CssVarName("primaryColorDark") == "--primary-color-dark"
  {
    ColorWord();
    DarkWord();
    assert "primaryColorDark" == "primary" + "Color" + "Dark";
    assert "--primary-color-dark" == "--" + "primary" + "-" + "color" + "-" + "dark";
    ThreeWords("primaryColorDark", "--primary-color-dark", "primary", "Color", "Dark", "color", "dark");
  }

  // ---------------------------------------------------------------------------
  // `applyTheme`
  // ---------------------------------------------------------------------------

  /** The document's inline style: the custom properties set on it. */
  class Style {
    var properties: map<string, string>

    constructor ()
      ensures properties == map[]
    {
      properties := map[];
    }

    /** `style.setProperty(name, value)`. */
    method SetProperty(name: string, value: string)
      modifies this
      ensures properties == old(properties)[name := value]
    {
      properties := properties[name := value];
    }
  }

  /** The variables the entries are written to. */
  function VarSet(entries: Theme): (r: set<string>)
    ensures forall i :: 0 <= i < |entries| ==> CssVarName(entries[i].0) in r
  {
    if entries == [] then {}
    else
      var n := |entries| - 1;
      assert forall i :: 0 <= i < n ==> entries[..n][i] == entries[i];
      VarSet(entries[..n]) + {CssVarName(entries[n].0)}
  }

  /** Only the entries' variables are written. */
  lemma {:induction false} VarSetOnly(entries: Theme, v: string)
    requires v in VarSet(entries)
    ensures exists i :: 0 <= i < |entries| && v == CssVarName(entries[i].0)
  {
    var n := |entries| - 1;
    if v != CssVarName(entries[n].0) {
      VarSetOnly(entries[..n], v);
      var i :| 0 <= i < n && v == CssVarName(entries[..n][i].0);
      assert entries[..n][i] == entries[i];
    }
  }

  /** The properties after writing the entries one after the other: the theme's variables are added, nothing else changes. */
  function Written(properties: map<string, string>, entries: Theme): (r: map<string, string>)
    ensures r.Keys == properties.Keys + VarSet(entries)
    ensures forall v :: v in properties && v !in VarSet(entries) ==> r[v] == properties[v]
  {
    if entries == [] then properties
    else
      var n := |entries| - 1;
      Written(properties, entries[..n])[CssVarName(entries[n].0) := entries[n].1]
  }

  /** The `forEach` of `applyTheme`: one `setProperty` per entry, in order. */
  method WriteEntries(style: Style, entries: Theme)
    modifies style
    ensures style.properties == Written(old(style.properties), entries)
  {
    for i := 0 to |entries|
      invariant style.properties == Written(old(style.properties), entries[..i])
    {
      var (key, value) := entries[i];
      style.SetProperty(CssVarName(key), value);
      assert entries[..i + 1][..i] == entries[..i];
    }
    assert entries[..|entries|] == entries;
  }

  /** `applyTheme(themeName)`: the entries of the named theme written into the style. */
  method ApplyTheme(style: Style, name: ThemeName)
    modifies style
    ensures style.properties == Written(old(style.properties), ThemeOf(name))
  {
    var theme := ThemeOf(name);
    WriteEntries(style, theme);
  }

  /** A variable the entries write holds the value of the last entry written to it, whatever was there before. */
  lemma {:induction false} WrittenLastWins(properties: map<string, string>, entries: Theme, i: nat)
    requires i < |entries|
    requires forall j :: i < j < |entries| ==> CssVarName(entries[j].0) != CssVarName(entries[i].0)
    ensures Written(properties, entries)[CssVarName(entries[i].0)] == entries[i].1
  {
    var n := |entries| - 1;
    var v := CssVarName(entries[i].0);
    var before := Written(properties, entries[..n]);
    assert Written(properties, entries) == before[CssVarName(entries[n].0) := entries[n].1];
    if i < n {
      var p := entries[..n];
      assert p[i] == entries[i];
      forall j | i < j < n ensures CssVarName(p[j].0) != v {
        assert p[j] == entries[j];
      }
      WrittenLastWins(properties, p, i);
      assert CssVarName(entries[n].0) != v;
      assert Written(properties, entries)[v] == before[v];
    } else {
      assert Written(properties, entries)[v] == entries[n].1;
    }
  }

  /** What a variable the entries write ends up holding does not depend on the properties before. */
  lemma {:induction false} WrittenIgnoresBefore(p: map<string, string>, q: map<string, string>, entries: Theme, v: string)
    requires v in VarSet(entries)
    ensures Written(p, entries)[v] == Written(q, entries)[v]
  {
    var n := |entries| - 1;
    if v != CssVarName(entries[n].0) {
      WrittenIgnoresBefore(p, q, entries[..n], v);
    }
  }

  /** Writing `b` after `a` leaves what writing `b` alone leaves when `b` writes every variable `a` does. */
  lemma WrittenOver(properties: map<string, string>, a: Theme, b: Theme)
    requires VarSet(a) <= VarSet(b)
    ensures Written(Written(properties, a), b) == Written(properties, b)
  {
    var r1 := Written(Written(properties, a), b);
    var r2 := Written(properties, b);
    forall v | v in r1 ensures r1[v] == r2[v] {
      if v in VarSet(b) {
        WrittenIgnoresBefore(Written(properties, a), properties, b, v);
      }
    }
  }

  /** Keys that agree position by position write the same variables. */
  lemma {:induction false} VarSetOfKeys(a: Theme, b: Theme)
    requires |a| == |b| && forall i :: 0 <= i < |a| ==> a[i].0 == b[i].0
    ensures VarSet(a) == VarSet(b)
  {
    if a != [] {
      var n := |a| - 1;
      VarSetOfKeys(a[..n], b[..n]);
    }
  }

  /** When the entries write different variables, each variable holds its entry's value. */
  lemma WrittenDistinct(properties: map<string, string>, entries: Theme)
    requires forall i, j :: 0 <= i < j < |entries| ==> CssVarName(entries[i].0) != CssVarName(entries[j].0)
    ensures forall i :: 0 <= i < |entries| ==> Written(properties, entries)[CssVarName(entries[i].0)] == entries[i].1
  {
    forall i | 0 <= i < |entries| ensures Written(properties, entries)[CssVarName(entries[i].0)] == entries[i].1 {
      WrittenLastWins(properties, entries, i);
    }
  }

  /**
    Applying a theme leaves, in the variable of each of its eleven keys, the
    value the theme gives that key.
  */
  lemma ThemeWrites(properties: map<string, string>, name: ThemeName)
    ensures forall i :: 0 <= i < |ThemeKeys| ==>
      Written(properties, ThemeOf(name))[CssVarName(ThemeKeys[i])] == ThemeOf(name)[i].1
  {
    var t := ThemeOf(name);
    ThemeVarsDistinct();
    WrittenDistinct(properties, t);
  }

  /**
    All themes write the same variables, so switching from one theme to
    another leaves exactly what applying the second alone leaves.
  */
  lemma ThemeSwitch(properties: map<string, string>, a: ThemeName, b: ThemeName)
    ensures VarSet(ThemeOf(a)) == VarSet(ThemeOf(b))
    ensures Written(Written(properties, ThemeOf(a)), ThemeOf(b)) == Written(properties, ThemeOf(b))
  {
    VarSetOfKeys(ThemeOf(a), ThemeOf(b));
    WrittenOver(properties, ThemeOf(a), ThemeOf(b));
  }
}
