/** The class key that `process_pm` looks for in a message body: the first match of the
    regular expression `\d+-\d+ season\d+ \d+` found by `re.search`. The pattern is a
    sequence of atoms, a greedy engine matches it, and its language is defined apart from
    the engine so that the two can be compared. */
module ClassPattern {
  import opened Wrappers

  predicate IsDigit(c: char) {
    '0' <= c <= '9'
  }

  /** A non-empty string of digits: what one `\d+` matches. */
  predicate DigitString(d: string) {
    |d| > 0 && forall i :: 0 <= i < |d| ==> IsDigit(d[i])
  }

  /** One element of the pattern: `\d+`, or a literal string. */
  datatype Atom = Digits | Lit(text: string)

  /** `\d+-\d+ season\d+ \d+`. */
  const CLASS_PATTERN: seq<Atom> := [Digits, Lit("-"), Digits, Lit(" season"), Digits, Lit(" "), Digits]

  /** Every `\d+` but the last is followed by a literal that starts with a non-digit, so a
      greedy digit run can never eat into what the next atom needs. */
  ghost predicate Unambiguous(atoms: seq<Atom>)
    decreases |atoms|
  {
    |atoms| <= 1 ||
    ((atoms[0].Digits? ==> atoms[1].Lit? && atoms[1].text != [] && !IsDigit(atoms[1].text[0]))
     && Unambiguous(atoms[1..]))
  }

  /** The language of the atoms: `k` splits into pieces that each atom accepts. */
  ghost predicate Spells(k: string, atoms: seq<Atom>)
    decreases |atoms|
  {
    if atoms == [] then k == []
    else match atoms[0]
      case Digits => exists n :: 0 < n <= |k| && DigitString(k[..n]) && Spells(k[n..], atoms[1..])
      case Lit(t) => t <= k && Spells(k[|t|..], atoms[1..])
  }

  /** A class key: a string the whole pattern matches. */
  ghost predicate IsClassKey(k: string) {
    Spells(k, CLASS_PATTERN)
  }

  /** Some substring of `s` is a class key. */
  ghost predicate ContainsClassKey(s: string) {
    exists j, e :: 0 <= j <= e <= |s| && IsClassKey(s[j..e])
  }

  /** The number of digits a greedy `\d*` consumes from position `i` of `s`: all of them
      are digits, and the run stops at the end of `s` or at the first non-digit. */
  function DigitRun(s: string, i: nat): (n: nat)
    requires i <= |s|
    ensures i + n <= |s|
    decreases |s| - i
  {
    if i < |s| && IsDigit(s[i]) then 1 + DigitRun(s, i + 1) else 0
  }

  /** The run is all digits, and it stops at the end of `s` or at the first non-digit. */
  lemma {:induction false} DigitRunIsRun(s: string, i: nat)
    requires i <= |s|
    ensures forall j :: i <= j < i + DigitRun(s, i) ==> IsDigit(s[j])
    ensures i + DigitRun(s, i) == |s| || !IsDigit(s[i + DigitRun(s, i)])
    decreases |s| - i
  {
    if i < |s| && IsDigit(s[i]) {
      DigitRunIsRun(s, i + 1);
    }
  }

  /** Where the atoms, matched one after another from position `i`, end: each `\d+` takes
      the whole run of digits in front of it, each literal must be there verbatim. */
  function MatchAtoms(s: string, i: nat, atoms: seq<Atom>): (r: Option<nat>)
    requires i <= |s|
    ensures r.Some? ==> i <= r.value <= |s|
    decreases |atoms|
  {
    if atoms == [] then Some(i)
    else match atoms[0]
      case Digits =>
        var n := DigitRun(s, i);
        if n == 0 then None else MatchAtoms(s, i + n, atoms[1..])
      case Lit(t) =>
        if i + |t| <= |s| && s[i..i + |t|] == t then MatchAtoms(s, i + |t|, atoms[1..]) else None
  }

  /** A span `[start, end)` of the searched string. */
  datatype Span = Span(start: nat, end: nat)

  /** `re.search` from position `from`: start positions are tried left to right and the
      first one where the atoms match wins. */
  function SearchFrom(s: string, from: nat, atoms: seq<Atom>): (r: Option<Span>)
    requires from <= |s|
    ensures r.None? ==> forall i :: from <= i <= |s| ==> MatchAtoms(s, i, atoms).None?
    ensures r.Some? ==> from <= r.value.start <= r.value.end <= |s|
    ensures r.Some? ==> MatchAtoms(s, r.value.start, atoms) == Some(r.value.end)
                        && forall i :: from <= i < r.value.start ==> MatchAtoms(s, i, atoms).None?
    decreases |s| - from
  {
    match MatchAtoms(s, from, atoms)
    case Some(e) => Some(Span(from, e))
    case None => if from == |s| then None else SearchFrom(s, from + 1, atoms)
  }

  /** `re.search(pattern, body).group()` when there is a match; `None` where the source
      would call `.group()` on `None`. */
  function Extract(body: string, atoms: seq<Atom>): (r: Option<string>)
    ensures r.None? <==> forall i :: 0 <= i <= |body| ==> MatchAtoms(body, i, atoms).None?
    ensures r.Some? ==> Spells(r.value, atoms)
  {
    match SearchFrom(body, 0, atoms)
    case None => None
    case Some(sp) =>
      MatchAtomsSpells(body, sp.start, atoms);
      Some(body[sp.start..sp.end])
  }

  /** The class key of a message body, as `process_pm` extracts it. */
  function ExtractKey(body: string): (r: Option<string>)
    ensures r.Some? ==> IsClassKey(r.value)
  {
    Extract(body, CLASS_PATTERN)
  }

  /** What the engine matches is in the language of the atoms. */
  lemma {:induction false} MatchAtomsSpells(s: string, i: nat, atoms: seq<Atom>)
    requires i <= |s| && MatchAtoms(s, i, atoms).Some?
    ensures Spells(s[i..MatchAtoms(s, i, atoms).value], atoms)
    decreases |atoms|
  {
    var e := MatchAtoms(s, i, atoms).value;
    if atoms != [] {
      match atoms[0]
      case Digits =>
        var n := DigitRun(s, i);
        DigitRunIsRun(s, i);
        MatchAtomsSpells(s, i + n, atoms[1..]);
        SpellsDigitsStep(s, i, e, n, atoms);
      case Lit(t) =>
        MatchAtomsSpells(s, i + |t|, atoms[1..]);
        SpellsLitStep(s, i, e, atoms);
    }
  }

  /** A run of digits in front of what the rest of the atoms spell is spelled by `\d+`
      followed by them. */
  lemma SpellsDigitsStep(s: string, i: nat, e: nat, n: nat, atoms: seq<Atom>)
    requires atoms != [] && atoms[0] == Digits && 0 < n && i + n <= e <= |s|
    requires forall j :: i <= j < i + n ==> IsDigit(s[j])
    requires Spells(s[i + n..e], atoms[1..])
    ensures Spells(s[i..e], atoms)
  {
    var k := s[i..e];
    assert k[n..] == s[i + n..e];
    assert DigitString(k[..n]) by {
      forall x | 0 <= x < n ensures IsDigit(k[..n][x]) {
        assert k[..n][x] == s[i + x];
      }
    }
  }

  /** A literal in front of what the rest of the atoms spell is spelled by the literal
      followed by them. */
  lemma SpellsLitStep(s: string, i: nat, e: nat, atoms: seq<Atom>)
    requires atoms != [] && atoms[0].Lit? && i + |atoms[0].text| <= e <= |s|
    requires s[i..i + |atoms[0].text|] == atoms[0].text
    requires Spells(s[i + |atoms[0].text|..e], atoms[1..])
    ensures Spells(s[i..e], atoms)
  {
    var t := atoms[0].text;
    var k := s[i..e];
    assert k[|t|..] == s[i + |t|..e];
    assert k[..|t|] == t;
  }

  /** When the pattern ends in `\d+`, a match ends where the run of digits does. */
  lemma {:induction false} MatchAtomsEndsRun(s: string, i: nat, atoms: seq<Atom>)
    requires i <= |s| && MatchAtoms(s, i, atoms).Some?
    requires atoms != [] && atoms[|atoms| - 1] == Digits
    ensures var e := MatchAtoms(s, i, atoms).value; e == |s| || !IsDigit(s[e])
    decreases |atoms|
  {
    var rest := atoms[1..];
    if atoms[0] == Digits && rest != [] {
      assert rest[|rest| - 1] == Digits;
      MatchAtomsEndsRun(s, i + DigitRun(s, i), rest);
    } else if atoms == [Digits] {
      DigitRunIsRun(s, i);
    } else if atoms[0].Lit? {
      assert rest[|rest| - 1] == Digits;
      MatchAtomsEndsRun(s, i + |atoms[0].text|, rest);
    }
  }

  /** Wherever the language of an unambiguous pattern occurs, the greedy engine matches
      from its first character and gets at least as far. */
  lemma {:induction false} SpellsMatches(s: string, j: nat, e: nat, atoms: seq<Atom>)
    requires j <= e <= |s| && Spells(s[j..e], atoms) && Unambiguous(atoms)
    ensures MatchAtoms(s, j, atoms).Some? && MatchAtoms(s, j, atoms).value >= e
    decreases |atoms|, 1
  {
    if atoms == [] {
      assert |s[j..e]| == 0;
    } else if atoms[0] == Digits {
      SpellsMatchesDigits(s, j, e, atoms);
    } else {
      SpellsMatchesLit(s, j, e, atoms);
    }
  }

  /** `SpellsMatches` for atoms that start with `\d+`. */
  lemma {:induction false} SpellsMatchesDigits(s: string, j: nat, e: nat, atoms: seq<Atom>)
    requires j <= e <= |s| && Spells(s[j..e], atoms) && Unambiguous(atoms)
    requires atoms != [] && atoms[0] == Digits
    ensures MatchAtoms(s, j, atoms).Some? && MatchAtoms(s, j, atoms).value >= e
    decreases |atoms|, 0
  {
    var rest := atoms[1..];
    var n, run := DigitsHead(s, j, e, atoms);
    if run == n {
      SpellsMatches(s, j + n, e, rest);
    } else {
      assert MatchAtoms(s, j + run, rest) == Some(j + run);
    }
  }

  /** `SpellsMatches` for atoms that start with a literal. */
  lemma {:induction false} SpellsMatchesLit(s: string, j: nat, e: nat, atoms: seq<Atom>)
    requires j <= e <= |s| && Spells(s[j..e], atoms) && Unambiguous(atoms)
    requires atoms != [] && atoms[0].Lit?
    ensures MatchAtoms(s, j, atoms).Some? && MatchAtoms(s, j, atoms).value >= e
    decreases |atoms|, 0
  {
    LitHead(s, j, e, atoms);
    SpellsMatches(s, j + |atoms[0].text|, e, atoms[1..]);
  }

  /** The engine's first step on an occurrence that starts with `\d+`: the greedy run
      takes exactly the occurrence's first digit group, unless the digit group ends the
      pattern, in which case it may take more and the match is already long enough. */
  lemma DigitsHead(s: string, j: nat, e: nat, atoms: seq<Atom>) returns (n: nat, run: nat)
    requires j <= e <= |s| && Spells(s[j..e], atoms) && Unambiguous(atoms)
    requires atoms != [] && atoms[0] == Digits
    ensures 0 < n && j + n <= e && run == DigitRun(s, j)
    ensures MatchAtoms(s, j, atoms) == MatchAtoms(s, j + run, atoms[1..])
    ensures run == n ==> Spells(s[j + n..e], atoms[1..])
    ensures run != n ==> atoms[1..] == [] && run > n && e == j + n
  {
    var rest := atoms[1..];
    n := DigitsSplit(s[j..e], atoms);
    assert s[j..e][n..] == s[j + n..e];
    assert rest != [] ==> rest[0].Lit? && rest[0].text != [] && !IsDigit(rest[0].text[0]) by {
      if rest != [] {
        assert atoms[1] == rest[0];
      }
    }
    run := DigitRunFrom(s, j, e, n, rest);
    MatchDigitsStep(s, j, atoms);
  }

  /** An occurrence of atoms that start with `\d+` starts with a group of digits that the
      rest of the atoms follow. */
  lemma DigitsSplit(k: string, atoms: seq<Atom>) returns (n: nat)
    requires atoms != [] && atoms[0] == Digits && Spells(k, atoms)
    ensures 0 < n <= |k| && DigitString(k[..n]) && Spells(k[n..], atoms[1..])
  {
    n :| 0 < n <= |k| && DigitString(k[..n]) && Spells(k[n..], atoms[1..]);
  }

  /** On atoms that start with `\d+`, the engine takes the digit run and goes on with the
      rest of the atoms. */
  lemma MatchDigitsStep(s: string, j: nat, atoms: seq<Atom>)
    requires j <= |s| && atoms != [] && atoms[0] == Digits && DigitRun(s, j) > 0
    ensures MatchAtoms(s, j, atoms) == MatchAtoms(s, j + DigitRun(s, j), atoms[1..])
  {
  }

  /** The engine's first step on an occurrence that starts with a literal: the literal is
      there and the rest of the occurrence follows it. */
  lemma LitHead(s: string, j: nat, e: nat, atoms: seq<Atom>)
    requires j <= e <= |s| && Spells(s[j..e], atoms)
    requires atoms != [] && atoms[0].Lit?
    ensures j + |atoms[0].text| <= e
    ensures Spells(s[j + |atoms[0].text|..e], atoms[1..])
    ensures MatchAtoms(s, j, atoms) == MatchAtoms(s, j + |atoms[0].text|, atoms[1..])
  {
    var t := atoms[0].text;
    var k := s[j..e];
    assert s[j..j + |t|] == k[..|t|] == t;
    assert k[|t|..] == s[j + |t|..e];
  }

  /** A group of `n` digits at `j` that the atoms `rest` follow: the greedy run there takes
      exactly those digits when `rest` starts with a literal, and otherwise `rest` is
      empty and the run may take more. */
  lemma DigitRunFrom(s: string, j: nat, e: nat, n: nat, rest: seq<Atom>) returns (run: nat)
    requires 0 < n && j + n <= e <= |s|
    requires DigitString(s[j..e][..n]) && Spells(s[j + n..e], rest)
    requires rest != [] ==> rest[0].Lit? && rest[0].text != [] && !IsDigit(rest[0].text[0])
    ensures run == DigitRun(s, j) && run >= n
    ensures run == n || (rest == [] && e == j + n)
  {
    run := DigitRun(s, j);
    DigitRunIsRun(s, j);
    assert forall x :: j <= x < j + n ==> IsDigit(s[x]) by {
      forall x | j <= x < j + n ensures IsDigit(s[x]) {
        assert s[x] == s[j..e][..n][x - j];
      }
    }
    if rest != [] {
      var t := rest[0].text;
      assert t <= s[j + n..e];
      assert s[j + n] == t[0];
    }
  }

  /** A match that starts on a digit after another digit can start one place earlier:
      the first `\d+` then takes the extra digit and the rest is unchanged. */
  lemma MatchAtomsShiftsLeft(s: string, p: nat, atoms: seq<Atom>)
    requires 0 < p <= |s| && atoms != [] && atoms[0] == Digits
    ensures IsDigit(s[p - 1]) && MatchAtoms(s, p, atoms).Some? ==>
              MatchAtoms(s, p - 1, atoms) == MatchAtoms(s, p, atoms)
  {
    if IsDigit(s[p - 1]) && MatchAtoms(s, p, atoms).Some? {
      assert DigitRun(s, p - 1) == 1 + DigitRun(s, p);
    }
  }

  /** A pattern that starts and ends with `\d+` and never lets a digit run eat into the
      next atom, as the class pattern does. */
  ghost predicate WellFormed(atoms: seq<Atom>) {
    atoms != [] && atoms[0] == Digits && atoms[|atoms| - 1] == Digits && Unambiguous(atoms)
  }

  lemma ClassPatternWellFormed()
    ensures WellFormed(CLASS_PATTERN)
  {
  }

  /** What `re.search` extracts is the leftmost occurrence of the pattern's language in the
      body: it is in the language, nothing in the language starts before it, it starts at
      the beginning of a run of digits and its last digit group is as long as the body
      allows. */
  lemma SearchFindsLeftmost(body: string, atoms: seq<Atom>)
    requires WellFormed(atoms) && SearchFrom(body, 0, atoms).Some?
    ensures var sp := SearchFrom(body, 0, atoms).value;
      && Spells(body[sp.start..sp.end], atoms)
      && (sp.end == |body| || !IsDigit(body[sp.end]))
      && (sp.start == 0 || !IsDigit(body[sp.start - 1]))
      && forall j, e :: 0 <= j < sp.start && j <= e <= |body| ==> !Spells(body[j..e], atoms)
  {
    var sp := SearchFrom(body, 0, atoms).value;
    MatchAtomsSpells(body, sp.start, atoms);
    MatchAtomsEndsRun(body, sp.start, atoms);
    if sp.start > 0 {
      MatchAtomsShiftsLeft(body, sp.start, atoms);
    }
    forall j, e | 0 <= j < sp.start && j <= e <= |body|
      ensures !Spells(body[j..e], atoms)
    {
      if Spells(body[j..e], atoms) {
        SpellsMatches(body, j, e, atoms);
      }
    }
  }

  /** `re.search` finds a match exactly when the body contains a string of the pattern's
      language, and what it extracts is in that language. */
  lemma ExtractIffContains(body: string, atoms: seq<Atom>)
    requires WellFormed(atoms)
    ensures Extract(body, atoms).Some? <==> exists j, e :: 0 <= j <= e <= |body| && Spells(body[j..e], atoms)
    ensures Extract(body, atoms).Some? ==> Spells(Extract(body, atoms).value, atoms)
  {
    if SearchFrom(body, 0, atoms).Some? {
      SearchFindsLeftmost(body, atoms);
    } else if exists j, e :: 0 <= j <= e <= |body| && Spells(body[j..e], atoms) {
      var j, e :| 0 <= j <= e <= |body| && Spells(body[j..e], atoms);
      SpellsMatches(body, j, e, atoms);
    }
  }

  /** A message body yields a class key exactly when it contains one, and the key it
      yields is one. */
  lemma ExtractKeyIffContains(body: string)
    ensures ExtractKey(body).Some? <==> ContainsClassKey(body)
    ensures ExtractKey(body).Some? ==> IsClassKey(ExtractKey(body).value)
  {
    ClassPatternWellFormed();
    ExtractIffContains(body, CLASS_PATTERN);
  }
}
