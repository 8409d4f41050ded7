/**
  The theme provider: applying a theme writes one CSS custom property per
  colour key on the document root and records the theme's name.
*/
module ThemeContext {
  import opened Strings

  predicate IsUpper(c: char) {
    'A' <= c <= 'Z'
  }

  /** `key.replace(/([A-Z])/g, '-$1')`: a dash before every uppercase letter. */
  function Dasherize(key: string): (r: string)
    decreases |key|
  {
    if key == [] then []
    else (if IsUpper(key[0]) then ['-', key[0]] else [key[0]]) + Dasherize(key[1..])
  }

  /** The custom property a colour key is stored under. */
  function CssVarName(key: string): string {
    "--" + ToLower(Dasherize(key))
  }

  function UpperCount(key: string): nat
    decreases |key|
  {
    if key == [] then 0 else (if IsUpper(key[0]) then 1 else 0) + UpperCount(key[1..])
  }

  /** Dasherizing and lowering in one pass, character by character. */
  function Kebab(key: string): (r: string)
    decreases |key|
  {
    if key == [] then []
    else (if IsUpper(key[0]) then ['-', LowerChar(key[0])] else [key[0]]) + Kebab(key[1..])
  }

  function UpperChar(c: char): char {
    if 'a' <= c <= 'z' then (c as int - 32) as char else c
  }

  /** Back from a kebab-case name: a dash and the letter after it become
      that letter in upper case. */
  function Camel(s: string): string
    decreases |s|
  {
    if s == [] then []
    else if s[0] == '-' && |s| >= 2 then [UpperChar(s[1])] + Camel(s[2..])
    else [s[0]] + Camel(s[1..])
  }

  predicate DashFree(key: string) {
    forall i :: 0 <= i < |key| ==> key[i] != '-'
  }

  lemma {:induction false} ToLowerAppend(a: string, b: string)
    ensures ToLower(a + b) == ToLower(a) + ToLower(b)
  {
    var l, r := ToLower(a + b), ToLower(a) + ToLower(b);
    forall i | 0 <= i < |l| ensures l[i] == r[i] {
      if i < |a| { assert (a + b)[i] == a[i]; } else { assert (a + b)[i] == b[i - |a|]; }
    }
  }

  /** The two-step transform of the source is the one-pass Kebab. */
  lemma {:induction false} LowerDasherizeIsKebab(key: string)
    ensures ToLower(Dasherize(key)) == Kebab(key)
    decreases |key|
  {
    if key != [] {
      var head := if IsUpper(key[0]) then ['-', key[0]] else [key[0]];
      LowerDasherizeIsKebab(key[1..]);
      ToLowerAppend(head, Dasherize(key[1..]));
      assert ToLower(head) == if IsUpper(key[0]) then ['-', LowerChar(key[0])] else [key[0]];
    }
  }

  /** A name is two dashes longer than its key, plus one dash per uppercase
      letter, and holds no uppercase letter. */
  lemma {:induction false} CssVarNameShape(key: string)
    ensures |CssVarName(key)| == |key| + UpperCount(key) + 2
    ensures NoUpper(CssVarName(key))
    ensures CssVarName(key)[..2] == "--"
  {
    DasherizeLength(key);
  }

  lemma {:induction false} DasherizeLength(key: string)
    ensures |Dasherize(key)| == |key| + UpperCount(key)
    decreases |key|
  {
    if key != [] {
      DasherizeLength(key[1..]);
    }
  }

  /** For keys without dashes, Camel undoes Kebab. */
  lemma {:induction false} CamelKebab(key: string)
    requires DashFree(key)
    ensures Camel(Kebab(key)) == key
    decreases |key|
  {
    if key != [] {
      assert DashFree(key[1..]) by {
        forall i | 0 <= i < |key[1..]| ensures key[1..][i] != '-' {
          assert key[1..][i] == key[i + 1];
        }
      }
      CamelKebab(key[1..]);
      var k := Kebab(key);
      if IsUpper(key[0]) {
        assert k == ['-', LowerChar(key[0])] + Kebab(key[1..]);
        assert k[2..] == Kebab(key[1..]);
      } else {
        assert k == [key[0]] + Kebab(key[1..]);
        assert k[1..] == Kebab(key[1..]);
        assert k[0] != '-';
      }
    }
  }

  /** Different dash-free keys never share a custom property. */
  lemma {:induction false} CssVarNameInjective(k1: string, k2: string)
    requires DashFree(k1) && DashFree(k2)
    requires CssVarName(k1) == CssVarName(k2)
    ensures k1 == k2
  {
    LowerDasherizeIsKebab(k1);
    LowerDasherizeIsKebab(k2);
    assert Kebab(k1) == CssVarName(k1)[2..] == CssVarName(k2)[2..] == Kebab(k2);
    CamelKebab(k1);
    CamelKebab(k2);
  }

  /** A lowercase word followed by two capitalized words, such as `primaryButtonHover`,
      becomes `--primary-button-hover`. */
  lemma {:induction false} KebabThreeWords(a: string, b: string, lb: string, c: string, lc: string)
    requires forall i :: 0 <= i < |a| ==> !IsUpper(a[i])
    requires |b| >= 1 && IsUpper(b[0]) && |lb| == |b| && lb[0] == LowerChar(b[0]) && lb[1..] == b[1..]
    requires forall i :: 1 <= i < |b| ==> !IsUpper(b[i])
    requires |c| >= 1 && IsUpper(c[0]) && |lc| == |c| && lc[0] == LowerChar(c[0]) && lc[1..] == c[1..]
    requires forall i :: 1 <= i < |c| ==> !IsUpper(c[i])
    ensures CssVarName(a + b + c) == "--" + (a + ("-" + lb) + ("-" + lc))
  {
    KebabOfWord(a);
    KebabOfCapitalized(b, lb);
    KebabOfCapitalized(c, lc);
    KebabAppend(a + b, c);
    KebabAppend(a, b);
    LowerDasherizeIsKebab(a + b + c);
  }

  /** The one-pass transform works character by character, so it distributes over concatenation. */
  lemma {:induction false} KebabAppend(a: string, b: string)
    ensures Kebab(a + b) == Kebab(a) + Kebab(b)
    decreases |a|
  {
    if a == [] {
      assert a + b == b;
    } else {
      var t := a + b;
      assert t[0] == a[0] && t[1..] == a[1..] + b;
      var h := if IsUpper(a[0]) then ['-', LowerChar(a[0])] else [a[0]];
      assert Kebab(t) == h + Kebab(a[1..] + b);
      KebabAppend(a[1..], b);
      assert Kebab(a) == h + Kebab(a[1..]);
      Regroup(h, Kebab(a[1..]), [], Kebab(b), []);
    }
  }

  /** Kebab leaves a word without uppercase letters alone. */
  lemma {:induction false} KebabOfWord(w: string)
    requires forall i :: 0 <= i < |w| ==> !IsUpper(w[i])
    ensures Kebab(w) == w
    decreases |w|
  {
    if w != [] {
      KebabOfWord(w[1..]);
    }
  }

  /** A capitalized word becomes a dash and the word in lowercase. */
  lemma {:induction false} KebabOfCapitalized(w: string, lower: string)
    requires |w| >= 1 && IsUpper(w[0]) && |lower| == |w|
    requires lower[0] == LowerChar(w[0]) && lower[1..] == w[1..]
    requires forall i :: 1 <= i < |w| ==> !IsUpper(w[i])
    ensures Kebab(w) == "-" + lower
  {
    KebabOfWord(w[1..]);
  }

  // ---------------------------------------------------------------- themes

  /** The colour keys of a theme with their values, in declaration order. */
  type Theme = seq<(string, string)>

  /** The custom properties a theme writes, as (name, value) pairs in order. */
  function Properties(entries: Theme): (props: seq<(string, string)>)
    ensures |props| == |entries|
    ensures forall i :: 0 <= i < |entries| ==> props[i] == (CssVarName(entries[i].0), entries[i].1)
  {
    seq(|entries|, i requires 0 <= i < |entries| => (CssVarName(entries[i].0), entries[i].1))
  }

  /** The custom properties after `setProperty` of each pair in order. */
  function Written(style: map<string, string>, props: seq<(string, string)>): map<string, string>
    decreases |props|
  {
    if props == [] then style
    else
      var last := props[|props| - 1];
      Written(style, props[..|props| - 1])[last.0 := last.1]
  }

  /** The custom properties after applying a theme. */
  function Applied(style: map<string, string>, entries: Theme): map<string, string> {
    Written(style, Properties(entries))
  }

  /** The names a list of pairs writes. */
  function NamesOf(props: seq<(string, string)>): set<string> {
    set i | 0 <= i < |props| :: props[i].0
  }

  /** The names a theme writes. */
  function Names(entries: Theme): set<string> {
    NamesOf(Properties(entries))
  }

  predicate DistinctNames(props: seq<(string, string)>) {
    forall i, j :: 0 <= i < j < |props| ==> props[i].0 != props[j].0
  }

  /** A JavaScript object's keys: distinct, and identifiers without dashes. */
  predicate WellKeyed(entries: Theme) {
    && (forall i, j :: 0 <= i < j < |entries| ==> entries[i].0 != entries[j].0)
    && (forall i :: 0 <= i < |entries| ==> DashFree(entries[i].0))
  }

  /** The names of a list are those of all pairs but the last, plus the last one's. */
  lemma NamesSnoc(props: seq<(string, string)>)
    requires props != []
    ensures NamesOf(props) == NamesOf(props[..|props| - 1]) + {props[|props| - 1].0}
  {
    var n := |props| - 1;
    var init := props[..n];
    forall x | x in NamesOf(props) ensures x in NamesOf(init) + {props[n].0} {
      var i :| 0 <= i < |props| && x == props[i].0;
      if i < n { assert init[i] == props[i]; }
    }
    forall x | x in NamesOf(init) ensures x in NamesOf(props) {
      var i :| 0 <= i < n && x == init[i].0;
      assert init[i] == props[i];
    }
  }

  /** Writing a list of pairs adds exactly its names to the properties. */
  lemma {:induction false} WrittenKeys(style: map<string, string>, props: seq<(string, string)>)
    ensures Written(style, props).Keys == style.Keys + NamesOf(props)
    decreases |props|
  {
    if props != [] {
      WrittenKeys(style, props[..|props| - 1]);
      NamesSnoc(props);
    }
  }

  /** With distinct names, each name ends up holding its own pair's value. */
  lemma {:induction false} WrittenValue(style: map<string, string>, props: seq<(string, string)>, i: nat)
    requires DistinctNames(props) && i < |props|
    ensures props[i].0 in Written(style, props) && Written(style, props)[props[i].0] == props[i].1
    decreases |props|
  {
    var n := |props| - 1;
    if i < n {
      var init := props[..n];
      assert init[i] == props[i];
      assert DistinctNames(init);
      WrittenValue(style, init, i);
    }
  }

  /** A property none of the pairs names keeps its value. */
  lemma {:induction false} WrittenKeeps(style: map<string, string>, props: seq<(string, string)>, k: string)
    requires k in style && k !in NamesOf(props)
    ensures k in Written(style, props) && Written(style, props)[k] == style[k]
    decreases |props|
  {
    if props != [] {
      NamesSnoc(props);
      WrittenKeeps(style, props[..|props| - 1], k);
    }
  }

  /** Distinct names are as many as the pairs. */
  lemma {:induction false} NamesOfCount(props: seq<(string, string)>)
    requires DistinctNames(props)
    ensures |NamesOf(props)| == |props|
    decreases |props|
  {
    if props != [] {
      var init := props[..|props| - 1];
      assert DistinctNames(init);
      NamesOfCount(init);
      NamesSnoc(props);
      assert props[|props| - 1].0 !in NamesOf(init) by {
        forall i | 0 <= i < |init| ensures init[i].0 != props[|props| - 1].0 {
          assert init[i] == props[i];
        }
      }
    }
  }

  /** Different keys of a theme give different property names. */
  lemma WellKeyedDistinct(entries: Theme)
    requires WellKeyed(entries)
    ensures DistinctNames(Properties(entries))
  {
    var props := Properties(entries);
    forall i, j | 0 <= i < j < |props| ensures props[i].0 != props[j].0 {
      if props[i].0 == props[j].0 {
        CssVarNameInjective(entries[i].0, entries[j].0);
      }
    }
  }

  /** Applying a theme sets exactly its names: each to its key's value,
      every other property left as it was. */
  lemma AppliedSets(style: map<string, string>, entries: Theme)
    requires WellKeyed(entries)
    ensures Applied(style, entries).Keys == style.Keys + Names(entries)
    ensures forall i :: 0 <= i < |entries| ==> Applied(style, entries)[CssVarName(entries[i].0)] == entries[i].1
    ensures forall k :: k in style && k !in Names(entries) ==> Applied(style, entries)[k] == style[k]
  {
    var props := Properties(entries);
    WellKeyedDistinct(entries);
    WrittenKeys(style, props);
    forall i | 0 <= i < |entries| ensures Applied(style, entries)[CssVarName(entries[i].0)] == entries[i].1 {
      WrittenValue(style, props, i);
    }
    forall k | k in style && k !in Names(entries) ensures Applied(style, entries)[k] == style[k] {
      WrittenKeeps(style, props, k);
    }
  }

  /** A theme writes as many properties as it has keys. */
  lemma NamesCount(entries: Theme)
    requires WellKeyed(entries)
    ensures |Names(entries)| == |entries|
  {
    WellKeyedDistinct(entries);
    NamesOfCount(Properties(entries));
  }

  /** The state `ThemeProvider` owns: the theme's name and the document
      root's custom properties. */
  class ThemeProvider {
    var theme: string
    var style: map<string, string>

    /** `useState('light')` over the document's current properties. */
    constructor(root: map<string, string>)
      ensures theme == "light" && style == root
    {
      theme := "light";
      style := root;
    }

    /** `applyTheme(themeName)` with `themes` passed in. A name that is not a
        theme makes `Object.keys` throw before anything is written or the
        name is stored; here that is `applied == false` and no change. */
    method ApplyTheme(themes: map<string, Theme>, themeName: string) returns (applied: bool)
      modifies this
      ensures applied <==> themeName in themes
      ensures applied ==> style == Applied(old(style), themes[themeName]) && theme == themeName
      ensures !applied ==> style == old(style) && theme == old(theme)
    {
      if themeName !in themes {
        return false;
      }
      var selectedTheme := themes[themeName];
      ghost var props := Properties(selectedTheme);
      for i := 0 to |selectedTheme|
        invariant style == Written(old(style), props[..i])
      {
        var (key, value) := selectedTheme[i];
        assert props[..i + 1][..i] == props[..i];
        style := style[CssVarName(key) := value];
      }
      assert props[..|props|] == props;
      theme := themeName;
      applied := true;
    }
  }
}
