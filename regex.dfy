/**
 * The bind-parameter patterns and what scanning with them yields.
 * A match is the record `finditer` produces: its span and its two named groups.
 * The built-in `sqlc` style `@(?P<param_name>[\w_]+)(::(?P<param_type>[\w_\[\]]+))?`
 * is scanned by `ScanSqlc`; a caller-supplied pattern is not interpreted here.
 */
module Regex {
  import opened Wrappers
  import opened Strings

  /** A compiled pattern: the registered `sqlc` style, or one compiled from a caller's `param_regex` text. */
  datatype Pattern = SqlcPattern | CustomPattern(source: string)

  /**
   * One match: the span [start, end) of the whole match and the `param_name` and `param_type`
   * groups, None when the group took no part in the match (or, for the type, the pattern has none).
   */
  datatype Match = Match(start: nat, end: nat, name: Option<string>, typ: Option<string>)

  /** Matches lie inside a text of length n, in order and without overlap, as `finditer` returns them. */
  ghost predicate WellFormed(ms: seq<Match>, n: nat) {
    && (forall k :: 0 <= k < |ms| ==> ms[k].start <= ms[k].end <= n)
    && (forall j, k :: 0 <= j < k < |ms| ==> ms[j].end <= ms[k].start)
  }

  /** Where the text before match i begins: the end of the previous match, or 0. */
  function Prev(ms: seq<Match>, i: nat): nat
    requires i <= |ms|
  {
    if i == 0 then 0 else ms[i - 1].end
  }

  /** End of the last match, or 0 when there is none. */
  function End(ms: seq<Match>): nat {
    Prev(ms, |ms|)
  }

  predicate InClass(c: char, typeClass: bool) {
    if typeClass then IsTypeChar(c) else IsWordChar(c)
  }

  /** End of the longest run of word characters (or type characters) that starts at i: a greedy `+`. */
  function RunEnd(s: string, i: nat, typeClass: bool): (e: nat)
    requires i <= |s|
    ensures i <= e <= |s|
    ensures forall k :: i <= k < e ==> InClass(s[k], typeClass)
    ensures e == |s| || !InClass(s[e], typeClass)
    decreases |s| - i
  {
    if i < |s| && InClass(s[i], typeClass) then RunEnd(s, i + 1, typeClass) else i
  }

  function TypeSuffix(typ: Option<string>): string {
    match typ
    case None => ""
    case Some(t) => "::" + t
  }

  /** `::` followed by a type character starts at position p. */
  predicate TypeFollows(s: string, p: nat) {
    p + 2 < |s| && s[p] == ':' && s[p + 1] == ':' && IsTypeChar(s[p + 2])
  }

  /**
   * m is what the sqlc pattern matches at m.start: `@`, a longest non-empty run of word
   * characters as the name, then `::` and a longest non-empty run of type characters as the
   * type whenever one follows.
   */
  ghost predicate IsSqlcToken(s: string, m: Match) {
    && m.name.Some?
    && var name := m.name.value;
       var nameEnd := m.start + 1 + |name|;
       && 1 <= |name|
       && nameEnd <= m.end <= |s|
       && s[m.start] == '@'
       && s[m.start + 1..nameEnd] == name
       && (forall k :: m.start + 1 <= k < nameEnd ==> IsWordChar(s[k]))
       && (nameEnd == |s| || !IsWordChar(s[nameEnd]))
       && match m.typ
          case None => m.end == nameEnd && !TypeFollows(s, nameEnd)
          case Some(t) =>
            && m.end == nameEnd + 2 + |t|
            && TypeFollows(s, nameEnd)
            && s[nameEnd + 2..m.end] == t
            && (forall k :: nameEnd + 2 <= k < m.end ==> IsTypeChar(s[k]))
            && (m.end == |s| || !IsTypeChar(s[m.end]))
  }

  /** The match of the sqlc pattern anchored at position i, if there is one. */
  function SqlcMatchAt(s: string, i: nat): (r: Option<Match>)
    ensures r.Some? <==> StartsToken(s, i)
    ensures r.Some? ==> r.value.start == i < r.value.end <= |s|
  {
    if i + 1 < |s| && s[i] == '@' && IsWordChar(s[i + 1]) then
      var nameEnd := RunEnd(s, i + 1, false);
      if TypeFollows(s, nameEnd) then
        var typeEnd := RunEnd(s, nameEnd + 2, true);
        Some(Match(i, typeEnd, Some(s[i + 1..nameEnd]), Some(s[nameEnd + 2..typeEnd])))
      else
        Some(Match(i, nameEnd, Some(s[i + 1..nameEnd]), None))
    else
      None
  }

  /** What SqlcMatchAt finds is a token in the sense of IsSqlcToken. */
  lemma SqlcMatchAtIsToken(s: string, i: nat)
    requires SqlcMatchAt(s, i).Some?
    ensures IsSqlcToken(s, SqlcMatchAt(s, i).value)
  {
  }

  /** The text of a token is `@`, its name and, when it has one, `::` and its type. */
  lemma TokenText(s: string, m: Match)
    requires IsSqlcToken(s, m)
    ensures s[m.start..m.end] == "@" + m.name.value + TypeSuffix(m.typ)
  {
    var nameEnd := m.start + 1 + |m.name.value|;
    match m.typ {
      case None =>
        assert s[m.start..m.end] == [s[m.start]] + s[m.start + 1..nameEnd];
      case Some(t) =>
        assert s[m.start..m.end] == [s[m.start]] + s[m.start + 1..nameEnd] + s[nameEnd..nameEnd + 2] + s[nameEnd + 2..m.end];
        assert s[nameEnd..nameEnd + 2] == "::";
    }
  }

  /** At most one sqlc token starts at a given position: the greedy reading is the only one. */
  lemma SqlcTokenUnique(s: string, m1: Match, m2: Match)
    requires IsSqlcToken(s, m1) && IsSqlcToken(s, m2) && m1.start == m2.start
    ensures m1 == m2
  {
  }

  /** A sqlc token starts at p: an `@` followed by a word character. */
  predicate StartsToken(s: string, p: nat) {
    p + 1 < |s| && s[p] == '@' && IsWordChar(s[p + 1])
  }

  /** No sqlc token starts anywhere in [lo, hi). */
  ghost predicate NoTokenIn(s: string, lo: nat, hi: nat) {
    forall p :: lo <= p < hi ==> !StartsToken(s, p)
  }

  /** Where the search for match k resumes: i for the first, else the end of match k - 1. */
  function ResumeAt(i: nat, ms: seq<Match>, k: nat): nat
    requires k <= |ms|
  {
    if k == 0 then i else ms[k - 1].end
  }

  /**
   * `finditer` from position i onwards: the leftmost token, then the search resumes at its end.
   * Every match found is the token at its start.
   */
  function ScanFrom(s: string, i: nat): (r: seq<Match>)
    requires i <= |s|
    ensures WellFormed(r, |s|)
    ensures forall k :: 0 <= k < |r| ==> i <= r[k].start && SqlcMatchAt(s, r[k].start) == Some(r[k])
    decreases |s| - i
  {
    if i == |s| then
      []
    else
      match SqlcMatchAt(s, i)
      case Some(m) => [m] + ScanFrom(s, m.end)
      case None => ScanFrom(s, i + 1)
  }

  /** No token starts in a gap of the scan from i, nor after its last match. */
  ghost predicate SkipsNothing(s: string, i: nat, r: seq<Match>) {
    && (forall k :: 0 <= k < |r| ==> NoTokenIn(s, ResumeAt(i, r, k), r[k].start))
    && NoTokenIn(s, ResumeAt(i, r, |r|), |s|)
  }

  /** The scan skips no token: none starts in a gap between the matches it reports, or after the last. */
  lemma {:induction false} ScanFromSkipsNothing(s: string, i: nat)
    requires i <= |s|
    ensures SkipsNothing(s, i, ScanFrom(s, i))
    decreases |s| - i, 1
  {
    if i < |s| {
      if StartsToken(s, i) {
        ScanFromSkipsNothingAtToken(s, i);
      } else {
        ScanFromSkipsNothingAtMiss(s, i);
      }
    }
  }

  lemma {:induction false} ScanFromSkipsNothingAtToken(s: string, i: nat)
    requires i < |s| && StartsToken(s, i)
    ensures SkipsNothing(s, i, ScanFrom(s, i))
    decreases |s| - i, 0
  {
    var m := SqlcMatchAt(s, i).value;
    assert ScanFrom(s, i) == [m] + ScanFrom(s, m.end);
    ScanFromSkipsNothing(s, m.end);
    SkipsNothingAfterToken(s, i, m, ScanFrom(s, m.end));
  }

  lemma {:induction false} ScanFromSkipsNothingAtMiss(s: string, i: nat)
    requires i < |s| && !StartsToken(s, i)
    ensures SkipsNothing(s, i, ScanFrom(s, i))
    decreases |s| - i, 0
  {
    assert ScanFrom(s, i) == ScanFrom(s, i + 1);
    ScanFromSkipsNothing(s, i + 1);
    SkipsNothingAfterMiss(s, i, ScanFrom(s, i + 1));
  }

  lemma SkipsNothingAfterToken(s: string, i: nat, m: Match, rest: seq<Match>)
    requires m.start == i && SkipsNothing(s, m.end, rest)
    ensures SkipsNothing(s, i, [m] + rest)
  {
    var r := [m] + rest;
    forall k | 0 < k < |r|
      ensures NoTokenIn(s, ResumeAt(i, r, k), r[k].start)
    {
      assert r[k] == rest[k - 1];
      assert ResumeAt(i, r, k) == ResumeAt(m.end, rest, k - 1);
    }
    assert ResumeAt(i, r, |r|) == ResumeAt(m.end, rest, |rest|);
  }

  lemma SkipsNothingAfterMiss(s: string, i: nat, r: seq<Match>)
    requires !StartsToken(s, i) && SkipsNothing(s, i + 1, r)
    requires forall k :: 0 <= k < |r| ==> i + 1 <= r[k].start
    ensures SkipsNothing(s, i, r)
  {
    forall k | 0 < k <= |r|
      ensures ResumeAt(i, r, k) == ResumeAt(i + 1, r, k)
    {
    }
    var hi := if |r| > 0 then r[0].start else |s|;
    assert NoTokenIn(s, i + 1, hi);
    forall p | i <= p < hi ensures !StartsToken(s, p) {
      if p > i {
        assert i + 1 <= p;
      }
    }
  }

  /** The matches of the sqlc style in s, in order. */
  function ScanSqlc(s: string): (r: seq<Match>)
    ensures WellFormed(r, |s|)
    ensures forall k :: 0 <= k < |r| ==> SqlcMatchAt(s, r[k].start) == Some(r[k])
  {
    ScanFrom(s, 0)
  }

  /** ScanSqlc is the leftmost, non-overlapping scan: no token starts between or after its matches. */
  lemma ScanSqlcSkipsNothing(s: string)
    ensures var r := ScanSqlc(s);
      && (forall k :: 0 <= k < |r| ==> NoTokenIn(s, Prev(r, k), r[k].start))
      && NoTokenIn(s, End(r), |s|)
  {
    var r := ScanSqlc(s);
    ScanFromSkipsNothing(s, 0);
    assert forall k :: 0 <= k <= |r| ==> ResumeAt(0, r, k) == Prev(r, k);
    assert SkipsNothing(s, 0, r);
  }

  /** Text without an `@` holds no sqlc placeholder. */
  lemma NoAtSignNoMatches(s: string)
    requires forall k :: 0 <= k < |s| ==> s[k] != '@'
    ensures ScanSqlc(s) == []
  {
    var r := ScanSqlc(s);
    assert |r| > 0 ==> StartsToken(s, r[0].start);
  }

  /** Every match the sqlc scan reports is a whole token. */
  lemma ScanSqlcTokens(s: string)
    ensures forall k :: 0 <= k < |ScanSqlc(s)| ==> IsSqlcToken(s, ScanSqlc(s)[k])
  {
    var r := ScanSqlc(s);
    forall k | 0 <= k < |r| ensures IsSqlcToken(s, r[k]) {
      SqlcMatchAtIsToken(s, r[k].start);
    }
  }
}
