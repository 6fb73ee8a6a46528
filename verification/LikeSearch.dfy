/**
 `AsyncModRegistry.search_mods`: the escaping of a search term, and the LIKE of SQL-92
 (section 8.5) with ESCAPE and SQLite's case folding of ASCII letters.
 */
module LikeSearch {

  const ESCAPE: char := '\\'

  /** `str.replace` of a one-character pattern. */
  function Replace(s: string, c: char, sub: string): string {
    if s == "" then "" else (if s[0] == c then sub else [s[0]]) + Replace(s[1..], c, sub)
  }

  /** The three successive replacements of the code. */
  function Escaped(pattern: string): string {
    Replace(Replace(Replace(pattern, '\\', "\\\\"), '%', "\\%"), '_', "\\_")
  }

  predicate Special(c: char) { c == '\\' || c == '%' || c == '_' }

  /** Escaping each character on its own. */
  function EscapedEach(pattern: string): string {
    if pattern == "" then ""
          else (if Special(pattern[0]) then [ESCAPE, pattern[0]] else [pattern[0]]) + EscapedEach(pattern[1..])
  }

  lemma {:induction false} ReplaceConcat(s: string, t: string, c: char, sub: string)
    ensures Replace(s + t, c, sub) == Replace(s, c, sub) + Replace(t, c, sub)
  {
    if s == "" {
      assert s + t == t;
    } else {
      assert (s + t)[1..] == s[1..] + t;
      ReplaceConcat(s[1..], t, c, sub);
    }
  }

  lemma ReplaceOne(x: char, c: char, sub: string)
    ensures Replace([x], c, sub) == if x == c then sub else [x]
  {
    assert [x][1..] == "";
  }

  lemma ReplaceTwo(x: char, y: char, c: char, sub: string)
    ensures Replace([x, y], c, sub) == (if x == c then sub else [x]) + (if y == c then sub else [y])
  {
    assert [x, y] == [x] + [y];
    ReplaceConcat([x], [y], c, sub);
    ReplaceOne(x, c, sub);
    ReplaceOne(y, c, sub);
  }

  /** The order of the replacements is right: none escapes an escape again. */
  lemma {:induction false} EscapingIsPerCharacter(pattern: string)
    ensures Escaped(pattern) == EscapedEach(pattern)
  {
    if pattern != "" {
      var c, rest := pattern[0], pattern[1..];
      EscapingIsPerCharacter(rest);
      var r1 := Replace(rest, '\\', "\\\\");
      var r2 := Replace(r1, '%', "\\%");
      var h1 := if c == '\\' then "\\\\" else [c];
      var h2 := if c == '%' then "\\%" else h1;
      ReplaceConcat(h1, r1, '%', "\\%");
      ReplaceTwo('\\', '\\', '%', "\\%");
      ReplaceOne(c, '%', "\\%");
      ReplaceConcat(h2, r2, '_', "\\_");
      ReplaceTwo('\\', '\\', '_', "\\_");
      ReplaceTwo('\\', '%', '_', "\\_");
      ReplaceOne(c, '_', "\\_");
      assert "\\\\" == ['\\', '\\'] && "\\%" == ['\\', '%'] && "\\_" == ['\\', '_'];
      assert Replace(h1, '%', "\\%") == h2;
    }
  }

  // ------------------------------------------------------------------ LIKE

  /** SQLite folds only the ASCII letters. */
  function Fold(c: char): char {
    if 'A' <= c <= 'Z' then (c as int + 32) as char else c
  }

  predicate SameLetter(a: char, b: char) { Fold(a) == Fold(b) }

  /** `name LIKE pattern ESCAPE '\'`. */
  predicate Like(pattern: string, name: string)
    decreases |pattern|, |name|
  {
    if pattern == "" then name == ""
    else if pattern[0] == '%' then Like(pattern[1..], name) || (name != "" && Like(pattern, name[1..]))
    else if pattern[0] == '_' then name != "" && Like(pattern[1..], name[1..])
    else if pattern[0] == ESCAPE then
      |pattern| >= 2 && name != "" && SameLetter(pattern[1], name[0]) && Like(pattern[2..], name[1..])
    else name != "" && SameLetter(pattern[0], name[0]) && Like(pattern[1..], name[1..])
  }

  /** Letters agree when they are equal or the two cases of one ASCII letter, which are 32 apart. */
  lemma SameLetterMeans(a: char, b: char)
    ensures SameLetter(a, b) <==>
            || a == b
            || ('A' <= a <= 'Z' && b as int == a as int + 32)
            || ('A' <= b <= 'Z' && a as int == b as int + 32)
  {
  }

  /** Without `%` and escapes, a pattern fixes every letter but those at its `_`. */
  lemma {:induction false} PlainPattern(pattern: string, name: string)
    requires '%' !in pattern && '\\' !in pattern
    ensures Like(pattern, name) <==>
            && |pattern| == |name|
            && forall i :: 0 <= i < |pattern| ==> pattern[i] == '_' || SameLetter(pattern[i], name[i])
    decreases |pattern|
  {
    if pattern != "" && name != "" {
      var p, n := pattern[1..], name[1..];
      PlainPattern(p, n);
      assert forall i :: 1 <= i < |pattern| ==> p[i - 1] == pattern[i];
      assert forall i :: 1 <= i < |name| ==> n[i - 1] == name[i];
    }
  }

  /** The name starts with the term, up to case. */
  predicate StartsWith(term: string, name: string) {
    |term| <= |name| && forall i :: 0 <= i < |term| ==> SameLetter(term[i], name[i])
  }

  /** The term occurs in the name, up to case. */
  predicate Contains(term: string, name: string) {
    exists k :: 0 <= k <= |name| && StartsWith(term, name[k..])
  }

  lemma {:induction false} AnySuffix(name: string)
    ensures Like("%", name)
  {
    assert "%"[1..] == "";
    if name != "" {
      AnySuffix(name[1..]);
    }
  }

  lemma StartsWithStep(term: string, name: string)
    requires term != "" && name != ""
    ensures StartsWith(term, name) <==> SameLetter(term[0], name[0]) && StartsWith(term[1..], name[1..])
  {
    if SameLetter(term[0], name[0]) && StartsWith(term[1..], name[1..]) {
      forall i | 0 <= i < |term| ensures SameLetter(term[i], name[i]) {
        if i > 0 {
          assert SameLetter(term[1..][i - 1], name[1..][i - 1]);
        }
      }
    }
    if StartsWith(term, name) {
      forall i | 0 <= i < |term[1..]| ensures SameLetter(term[1..][i], name[1..][i]) {
        assert SameLetter(term[i + 1], name[i + 1]);
      }
    }
  }

  /** An escaped term followed by `%` matches exactly the names that start with the term. */
  lemma {:induction false} EscapedPrefix(term: string, name: string)
    ensures Like(EscapedEach(term) + "%", name) <==> StartsWith(term, name)
    decreases |term|
  {
    if term == "" {
      assert EscapedEach(term) + "%" == "%";
      AnySuffix(name);
    } else {
      var p := EscapedEach(term) + "%";
      var head := if Special(term[0]) then [ESCAPE, term[0]] else [term[0]];
      assert p == head + (EscapedEach(term[1..]) + "%");
      assert p[|head|..] == EscapedEach(term[1..]) + "%";
      if name != "" {
        EscapedPrefix(term[1..], name[1..]);
        StartsWithStep(term, name);
      }
    }
  }

  lemma {:induction false} FloatsTo(middle: string, name: string, k: nat)
    requires k <= |name| && Like(middle, name[k..])
    ensures Like("%" + middle, name)
    decreases k
  {
    var p := "%" + middle;
    assert p[0] == '%' && p[1..] == middle;
    if k == 0 {
      assert name[0..] == name;
    } else {
      assert name[1..][k - 1..] == name[k..];
      FloatsTo(middle, name[1..], k - 1);
    }
  }

  lemma {:induction false} FloatsFrom(middle: string, name: string) returns (k: nat)
    requires Like("%" + middle, name)
    ensures k <= |name| && Like(middle, name[k..])
    decreases |name|
  {
    var p := "%" + middle;
    assert p[0] == '%' && p[1..] == middle;
    if Like(middle, name) {
      k := 0;
      assert name[0..] == name;
    } else {
      k := FloatsFrom(middle, name[1..]);
      assert name[1..][k..] == name[k + 1..];
      k := k + 1;
    }
  }

  /** `%...%` looks for the middle at every position. */
  lemma FloatingMatch(middle: string, name: string)
    ensures Like("%" + middle, name) <==> exists k :: 0 <= k <= |name| && Like(middle, name[k..])
  {
    if Like("%" + middle, name) {
      var k := FloatsFrom(middle, name);
    }
    if k :| 0 <= k <= |name| && Like(middle, name[k..]) {
      FloatsTo(middle, name, k);
    }
  }

  /** The query matches a name exactly when the raw term occurs in it, up to ASCII case. */
  lemma SearchIsExact(term: string, name: string)
    ensures Like("%" + Escaped(term) + "%", name) <==> Contains(term, name)
  {
    EscapingIsPerCharacter(term);
    assert "%" + Escaped(term) + "%" == "%" + (EscapedEach(term) + "%");
    FloatingMatch(EscapedEach(term) + "%", name);
    forall k | 0 <= k <= |name|
      ensures Like(EscapedEach(term) + "%", name[k..]) <==> StartsWith(term, name[k..])
    {
      EscapedPrefix(term, name[k..]);
    }
  }

  /** Without the escaping a term such as `_` also finds names that do not contain it. */
  lemma UnescapedIsNotExact()
    ensures Like("%" + "_" + "%", "x") && !Contains("_", "x")
    ensures Like("%" + "%" + "%", "x") && !Contains("%", "x")
  {
    assert Like("_" + "%", "x") by {
      assert ("_" + "%")[1..] == "%" && "x"[1..] == "";
      AnySuffix("");
    }
    assert "%" + "_" + "%" == "%" + ("_" + "%") && "%" + "%" + "%" == "%" + ("%" + "%");
    assert "x"[0..] == "x";
    FloatingMatch("_" + "%", "x");
    AnySuffix("x");
    FloatingMatch("%", "x");
    FloatingMatch("%" + "%", "x");
  }

  // ------------------------------------------------------------------ the query

  datatype ModRow = ModRow(modId: int, nexusId: int, name: string, version: string, installed: bool, enabledInVfs: bool)

  /** `SELECT ... FROM mods WHERE name LIKE ? ESCAPE '\'`. */
  function SearchMods(mods: seq<ModRow>, term: string): seq<ModRow> {
    if mods == [] then []
    else (if Like("%" + Escaped(term) + "%", mods[0].name) then [mods[0]] else []) + SearchMods(mods[1..], term)
  }

  /** A mod is found exactly when its name contains the term, as often as it is listed. */
  lemma {:induction false} SearchFinds(mods: seq<ModRow>, term: string, m: ModRow)
    ensures multiset(SearchMods(mods, term))[m] == if Contains(term, m.name) then multiset(mods)[m] else 0
  {
    if mods != [] {
      SearchFinds(mods[1..], term, m);
      SearchIsExact(term, mods[0].name);
      assert mods == [mods[0]] + mods[1..];
    }
  }

  /** The empty term finds every mod. */
  lemma {:induction false} EmptyTermFindsAll(mods: seq<ModRow>)
    ensures SearchMods(mods, "") == mods
  {
    if mods != [] {
      SearchIsExact("", mods[0].name);
      assert StartsWith("", mods[0].name[0..]);
      EmptyTermFindsAll(mods[1..]);
    }
  }
}
