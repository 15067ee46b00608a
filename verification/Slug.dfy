/** Names of remote workspaces: a slug made from a session's name that is valid
    and not taken. Names are given lower-cased. */
module Slug {
  import opened BrowserTypes
  import opened Decimals

  const MAX_SLUG_LEN := 32

  predicate Letter(c: char) {
    'a' <= c <= 'z'
  }

  predicate Plain(c: char) {
    Letter(c) || Digit(c)
  }

  // --- valid slugs -------------------------------------------------------------

  /** The repeated part of the pattern: a plain character, or a hyphen and a
      plain character. */
  predicate MatchesTail(s: string) {
    if s == "" then true
    else if Plain(s[0]) then MatchesTail(s[1..])
    else |s| >= 2 && s[0] == '-' && Plain(s[1]) && MatchesTail(s[2..])
  }

  predicate ValidSlug(s: string) {
    |s| <= MAX_SLUG_LEN && s != "" && Letter(s[0]) && MatchesTail(s[1..])
  }

  /** Plain characters and hyphens, no two hyphens in a row. */
  predicate Hyphenated(s: string) {
    && (forall i :: 0 <= i < |s| ==> Plain(s[i]) || s[i] == '-')
    && (forall i :: 0 < i < |s| ==> s[i - 1] != '-' || s[i] != '-')
  }

  lemma {:induction false} TailIffHyphenated(s: string)
    ensures MatchesTail(s) <==> Hyphenated(s) && (s != "" ==> s[|s| - 1] != '-')
    decreases |s|
  {
    if s != "" {
      if Plain(s[0]) {
        TailIffHyphenated(s[1..]);
        HyphenatedTail(s, 1);
      } else if |s| >= 2 && s[0] == '-' && Plain(s[1]) {
        TailIffHyphenated(s[2..]);
        HyphenatedTail(s, 2);
      }
    }
  }

  lemma HyphenatedTail(s: string, k: nat)
    requires 1 <= k <= 2 && k <= |s| && Plain(s[k - 1]) && (k == 2 ==> s[0] == '-')
    ensures Hyphenated(s) <==> Hyphenated(s[k..])
    ensures s[k..] != "" ==> s[k..][|s| - k - 1] == s[|s| - 1]
  {
    var t := s[k..];
    assert forall i :: 0 <= i < |t| ==> t[i] == s[i + k];
    if Hyphenated(t) {
      forall i | 0 <= i < |s| ensures Plain(s[i]) || s[i] == '-' {
        if i >= k {
          assert s[i] == t[i - k];
        }
      }
      forall i | 0 < i < |s| ensures s[i - 1] != '-' || s[i] != '-' {
        if i > k {
          assert s[i] == t[i - k] && s[i - 1] == t[i - 1 - k];
        }
      }
    }
  }

  /** A slug is valid exactly when it starts with a letter, uses plain
      characters and single hyphens, does not end in a hyphen and is not too
      long. */
  lemma ValidSlugIff(s: string)
    ensures ValidSlug(s) <==> 0 < |s| <= MAX_SLUG_LEN && Letter(s[0]) && Hyphenated(s) && s[|s| - 1] != '-'
  {
    if s != "" && Letter(s[0]) {
      TailIffHyphenated(s[1..]);
      HyphenatedTail(s, 1);
    }
  }

  // --- the base slug -----------------------------------------------------------

  /** Every run of other characters becomes one hyphen. */
  function Collapse(s: string): string {
    if s == "" then ""
    else
      var t, c := Collapse(s[..|s| - 1]), s[|s| - 1];
      if Plain(c) then t + [c] else if t != "" && t[|t| - 1] == '-' then t else t + "-"
  }

  function TrimLeft(s: string): string {
    if s != "" && (s[0] == '-' || Digit(s[0])) then TrimLeft(s[1..]) else s
  }

  function TrimRight(s: string): string {
    if s != "" && s[|s| - 1] == '-' then TrimRight(s[..|s| - 1]) else s
  }

  function Truncate(s: string, n: nat): string {
    TrimRight(if |s| > n then s[..n] else s)
  }

  /** After the first trim nothing starts with a hyphen, so trimming hyphens on
      both sides only trims the end. */
  function Stem(lower: string): string {
    TrimRight(TrimLeft(Collapse(lower)))
  }

  function BaseSlug(lower: string): string {
    Truncate(if Stem(lower) == "" then "session" else Stem(lower), MAX_SLUG_LEN)
  }

  lemma {:induction false} CollapseIsHyphenated(s: string)
    ensures Hyphenated(Collapse(s))
  {
    if s != "" {
      CollapseIsHyphenated(s[..|s| - 1]);
    }
  }

  lemma {:induction false} TrimLeftStarts(s: string)
    requires Hyphenated(s)
    ensures Hyphenated(TrimLeft(s)) && (TrimLeft(s) != "" ==> Letter(TrimLeft(s)[0]))
  {
    if s != "" && (s[0] == '-' || Digit(s[0])) {
      TrimLeftStarts(s[1..]);
    }
  }

  lemma {:induction false} TrimRightEnds(s: string)
    requires Hyphenated(s)
    ensures TrimRight(s) <= s && Hyphenated(TrimRight(s))
    ensures (TrimRight(s) != "" ==> TrimRight(s)[|TrimRight(s)| - 1] != '-')
    ensures s != "" && Letter(s[0]) ==> TrimRight(s) != ""
  {
    if s != "" && s[|s| - 1] == '-' {
      TrimRightEnds(s[..|s| - 1]);
    }
  }

  /** A piece of a slug that starts with a letter stays valid when cut. */
  lemma TruncatedIsValid(s: string, n: nat)
    requires s != "" && Letter(s[0]) && Hyphenated(s) && 0 < n <= MAX_SLUG_LEN
    ensures ValidSlug(Truncate(s, n)) && |Truncate(s, n)| <= n && Truncate(s, n) <= s
  {
    var t := if |s| > n then s[..n] else s;
    TrimRightEnds(t);
    ValidSlugIff(TrimRight(t));
  }

  lemma BaseIsValid(lower: string)
    ensures ValidSlug(BaseSlug(lower))
  {
    CollapseIsHyphenated(lower);
    TrimLeftStarts(Collapse(lower));
    TrimRightEnds(TrimLeft(Collapse(lower)));
    TruncatedIsValid(if Stem(lower) == "" then "session" else Stem(lower), MAX_SLUG_LEN);
  }

  lemma {:induction false} CollapseOfHyphenated(s: string)
    requires Hyphenated(s)
    ensures Collapse(s) == s
  {
    if s != "" {
      CollapseOfHyphenated(s[..|s| - 1]);
    }
  }

  /** A valid slug is its own base slug. */
  lemma BaseOfValid(s: string)
    requires ValidSlug(s)
    ensures BaseSlug(s) == s
  {
    ValidSlugIff(s);
    CollapseOfHyphenated(s);
  }

  /** Character `k` shows in the slug: it is plain, or begins a run of other
      characters. */
  predicate ShowsAt(s: string, k: nat)
    requires k < |s|
  {
    Plain(s[k]) || k == 0 || Plain(s[k - 1])
  }

  lemma {:induction false} CollapseEnds(s: string)
    requires s != ""
    ensures Collapse(s) != "" && (Collapse(s)[|Collapse(s)| - 1] == '-' <==> !Plain(s[|s| - 1]))
  {
  }

  lemma ShowsEarlier(s: string, k: nat)
    requires k + 1 < |s|
    ensures ShowsAt(s, k) <==> ShowsAt(s[..|s| - 1], k)
  {
  }

  ghost predicate AllShown(s: string, r: string, order: seq<nat>) {
    |order| == |r| && forall i :: 0 <= i < |order| ==> order[i] < |s| && ShownAs(s, order[i], r[i])
  }

  ghost predicate ShowsExactly(s: string, order: seq<nat>) {
    Increasing(order) && forall k :: 0 <= k < |s| ==> (k in order <==> ShowsAt(s, k))
  }

  /** Collapsing keeps exactly the plain characters, in order, and puts one hyphen
      where each run of other characters begins. */
  lemma {:induction false} CollapseKeeps(s: string) returns (order: seq<nat>)
    ensures ShowsExactly(s, order) && AllShown(s, Collapse(s), order)
  {
    order := [];
    if s != "" {
      var n := |s| - 1;
      var before := CollapseKeeps(s[..n]);
      if n > 0 {
        CollapseEnds(s[..n]);
      }
      CollapseStep(s);
      order := WithPosition(before, n, ShowsAt(s, n));
      ShowsOneMore(s, before);
      AllShownOneMore(s, Collapse(s[..n]), before);
    }
  }

  lemma ShowsOneMore(s: string, before: seq<nat>)
    requires s != "" && ShowsExactly(s[..|s| - 1], before) && forall i :: 0 <= i < |before| ==> before[i] < |s| - 1
    ensures ShowsExactly(s, WithPosition(before, |s| - 1, ShowsAt(s, |s| - 1)))
  {
    var n := |s| - 1;
    PositionAdded(before, n, ShowsAt(s, n));
    forall k | 0 <= k < n ensures ShowsAt(s, k) <==> ShowsAt(s[..n], k) {
      ShowsEarlier(s, k);
    }
  }

  lemma AllShownOneMore(s: string, r: string, before: seq<nat>)
    requires s != "" && AllShown(s[..|s| - 1], r, before)
    ensures var n := |s| - 1;
            && AllShown(s, r, before)
            && AllShown(s, r + (if Plain(s[n]) then [s[n]] else "-"), before + [n])
  {
    forall i | 0 <= i < |before| ensures ShownAs(s, before[i], r[i]) {
      assert ShownAs(s[..|s| - 1], before[i], r[i]);
    }
  }

  predicate ShownAs(s: string, k: nat, c: char)
    requires k < |s|
  {
    c == if Plain(s[k]) then s[k] else '-'
  }

  lemma CollapseStep(s: string)
    requires s != "" && (|s| > 1 ==> Collapse(s[..|s| - 1]) != "")
    requires |s| > 1 ==> (Collapse(s[..|s| - 1])[|Collapse(s[..|s| - 1])| - 1] == '-' <==> !Plain(s[|s| - 2]))
    ensures Collapse(s) ==
            Collapse(s[..|s| - 1]) +
            if Plain(s[|s| - 1]) then [s[|s| - 1]] else if ShowsAt(s, |s| - 1) then "-" else ""
  {
  }

  predicate AllHyphens(s: string) {
    forall i :: 0 <= i < |s| ==> s[i] == '-'
  }

  /** Trimming the start takes hyphens and digits away up to the first other
      character. */
  lemma {:induction false} TrimLeftCuts(s: string) returns (k: nat)
    ensures k <= |s| && TrimLeft(s) == s[k..]
    ensures forall i :: 0 <= i < k ==> s[i] == '-' || '0' <= s[i] <= '9'
    ensures k < |s| ==> s[k] != '-' && !('0' <= s[k] <= '9')
  {
    k := 0;
    if s != "" && (s[0] == '-' || Digit(s[0])) {
      var rest := TrimLeftCuts(s[1..]);
      k := rest + 1;
      assert forall i :: 0 < i <= rest ==> s[i] == s[1..][i - 1];
    }
  }

  lemma {:induction false} TrimRightCuts(s: string) returns (k: nat)
    ensures k <= |s| && TrimRight(s) == s[..k] && AllHyphens(s[k..]) && (k > 0 ==> s[k - 1] != '-')
  {
    k := |s|;
    if s != "" && s[|s| - 1] == '-' {
      var init := s[..|s| - 1];
      k := TrimRightCuts(init);
      assert init[..k] == s[..k];
      assert s[k..] == init[k..] + "-";
    }
  }

  /** Cutting leaves the longest piece that fits and does not end in a hyphen. */
  lemma TruncateCuts(s: string, n: nat) returns (cut: nat)
    ensures cut <= |s| && cut <= n && Truncate(s, n) == s[..cut] && (cut > 0 ==> s[cut - 1] != '-')
    ensures AllHyphens(s[cut..if |s| > n then n else |s|])
  {
    var short := if |s| > n then s[..n] else s;
    cut := TrimRightCuts(short);
    assert short[..cut] == s[..cut];
    assert short[cut..] == s[cut..|short|];
  }

  /** The stem is the collapsed name without the hyphens and digits it begins with
      and the hyphens it ends with. */
  lemma StemIsCut(lower: string) returns (from: nat, to: nat)
    ensures from <= to <= |Collapse(lower)| && Stem(lower) == Collapse(lower)[from..to]
    ensures forall i :: 0 <= i < from ==> Collapse(lower)[i] == '-' || '0' <= Collapse(lower)[i] <= '9'
    ensures from < |Collapse(lower)| ==>
              Collapse(lower)[from] != '-' && !('0' <= Collapse(lower)[from] <= '9')
    ensures AllHyphens(Collapse(lower)[to..]) && (from < to ==> Collapse(lower)[to - 1] != '-')
  {
    var s := Collapse(lower);
    from := TrimLeftCuts(s);
    var left := s[from..];
    var end := TrimRightCuts(left);
    to := from + end;
    assert left[..end] == s[from..to];
    assert left[end..] == s[to..];
  }

  /** The base slug is the stem, or "session" when there is none, cut to the
      longest slug. */
  lemma BaseIsCut(lower: string) returns (cut: nat)
    ensures var stem := if Stem(lower) == "" then "session" else Stem(lower);
            && cut <= |stem| && cut <= 32 && BaseSlug(lower) == stem[..cut] && (cut > 0 ==> stem[cut - 1] != '-')
            && AllHyphens(stem[cut..if |stem| > 32 then 32 else |stem|])
  {
    cut := TruncateCuts(if Stem(lower) == "" then "session" else Stem(lower), 32);
  }

  /** A base cut to what fits before some digits, without hyphens at the end. */
  ghost predicate CutBefore(slug: string, base: string, digits: string, cut: nat) {
    var room := 31 - |digits|;
    && cut <= |base| && cut <= room && slug == base[..cut] + "-" + digits && (cut > 0 ==> base[cut - 1] != '-')
    && AllHyphens(base[cut..if |base| > room then room else |base|])
  }

  lemma CutIsBefore(base: string, digits: string) returns (cut: nat)
    requires |digits| <= 31
    ensures CutBefore(Truncate(base, 31 - |digits|) + ("-" + digits), base, digits, cut)
  {
    cut := TruncateCuts(base, 31 - |digits|);
    assert base[..cut] + ("-" + digits) == base[..cut] + "-" + digits;
  }

  /** Candidate `n` is the base cut to what fits before its number, without
      hyphens at the end; at least 27 characters fit. */
  lemma CandidateIsCut(base: string, n: nat) returns (cut: nat)
    requires n < 10000
    ensures CutBefore(Candidate(base, n), base, Decimal(n), cut) && |Decimal(n)| <= 4
  {
    DecimalLength(n);
    cut := CutIsBefore(base, Decimal(n));
  }

  // --- numbered candidates ------------------------------------------------------

  lemma {:induction false} DecimalLength(n: nat)
    ensures 1 <= |Decimal(n)| && (n < 10000 ==> |Decimal(n)| <= 4)
  {
    if n >= 10 {
      DecimalLength(n / 10);
      DecimalLength(n / 100);
      DecimalLength(n / 1000);
    }
  }

  function Suffix(n: nat): string {
    "-" + Decimal(n)
  }

  function Candidate(base: string, n: nat): string {
    if |Suffix(n)| <= MAX_SLUG_LEN then Truncate(base, MAX_SLUG_LEN - |Suffix(n)|) + Suffix(n) else Suffix(n)
  }

  lemma CandidateIsValid(base: string, n: nat)
    requires ValidSlug(base) && n < 10000
    ensures ValidSlug(Candidate(base, n))
  {
    DecimalLength(n);
    DecimalRoundTrip(n);
    ValidSlugIff(base);
    var cut := Truncate(base, MAX_SLUG_LEN - |Suffix(n)|);
    TruncatedIsValid(base, MAX_SLUG_LEN - |Suffix(n)|);
    ValidSlugIff(cut);
    JoinedIsValid(cut, Decimal(n));
    assert cut + Suffix(n) == cut + "-" + Decimal(n);
  }

  lemma JoinedIsValid(cut: string, digits: string)
    requires ValidSlug(cut) && |cut| + 1 + |digits| <= MAX_SLUG_LEN
    requires AllDigits(digits)
    ensures ValidSlug(cut + "-" + digits)
  {
    ValidSlugIff(cut);
    var s := cut + "-" + digits;
    assert forall i :: 0 <= i < |s| ==>
             s[i] == if i < |cut| then cut[i] else if i == |cut| then '-' else digits[i - |cut| - 1];
    ValidSlugIff(s);
  }

  lemma HyphenAt(a: string, d: string)
    requires '-' !in d
    ensures var s := a + "-" + d; s[|a|] == '-' && (forall i :: |a| < i < |s| ==> s[i] != '-') && s[|a| + 1..] == d
  {
  }

  lemma LastHyphen(a: string, d: string, b: string, e: string)
    requires a + "-" + d == b + "-" + e
    requires '-' !in d && '-' !in e
    ensures d == e
  {
    HyphenAt(a, d);
    HyphenAt(b, e);
  }

  /** Differently numbered candidates differ, however much of the base was cut
      off. */
  lemma CandidatesDiffer(base: string, n: nat, m: nat)
    requires n < 10000 && m < 10000 && n != m
    ensures Candidate(base, n) != Candidate(base, m)
  {
    DecimalLength(n);
    DecimalLength(m);
    DecimalRoundTrip(n);
    DecimalRoundTrip(m);
    var a, b := Truncate(base, MAX_SLUG_LEN - |Suffix(n)|), Truncate(base, MAX_SLUG_LEN - |Suffix(m)|);
    assert a + Suffix(n) == a + "-" + Decimal(n) && b + Suffix(m) == b + "-" + Decimal(m);
    if Candidate(base, n) == Candidate(base, m) {
      LastHyphen(a, Decimal(n), b, Decimal(m));
    }
  }

  // --- choosing a slug ------------------------------------------------------------

  function Names(taken: seq<string>): set<string> {
    set name | name in taken
  }

  /** The base slug if it is free, else the first free candidate numbered from
      2 to 9999. */
  method ChooseSlug(lower: string, taken: seq<string>) returns (slug: Option<string>)
    ensures slug.Some? ==> ValidSlug(slug.value) && slug.value !in taken
    ensures BaseSlug(lower) !in taken ==> slug == Some(BaseSlug(lower))
    ensures BaseSlug(lower) in taken && slug.Some? ==>
              exists n :: IsFirstFree(BaseSlug(lower), taken, n) && slug.value == Candidate(BaseSlug(lower), n)
    ensures slug.None? <==>
            BaseSlug(lower) in taken && forall n :: 2 <= n < 10000 ==> Candidate(BaseSlug(lower), n) in taken
  {
    var used: set<string> := {};
    for i := 0 to |taken|
      invariant used == Names(taken[..i])
    {
      assert taken[..i + 1] == taken[..i] + [taken[i]];
      used := used + {taken[i]};
    }
    assert taken[..|taken|] == taken;
    var base := BaseSlug(lower);
    BaseIsValid(lower);
    if base !in used {
      return Some(base);
    }
    for n := 2 to 10000
      invariant forall m :: 2 <= m < n ==> Candidate(base, m) in taken
    {
      var candidate := Candidate(base, n);
      if candidate !in used {
        CandidateIsValid(base, n);
        assert IsFirstFree(base, taken, n);
        return Some(candidate);
      }
    }
    slug := None;
  }

  ghost predicate IsFirstFree(base: string, taken: seq<string>, n: nat) {
    2 <= n < 10000 && Candidate(base, n) !in taken && forall m :: 2 <= m < n ==> Candidate(base, m) in taken
  }

  ghost function CandidatesBelow(base: string, n: nat): set<string> {
    set m | 2 <= m < n :: Candidate(base, m)
  }

  lemma LastIsNew(base: string, n: nat)
    requires 2 < n <= 10000
    ensures Candidate(base, n - 1) !in CandidatesBelow(base, n - 1)
    ensures CandidatesBelow(base, n) == CandidatesBelow(base, n - 1) + {Candidate(base, n - 1)}
  {
    forall m | 2 <= m < n - 1 ensures Candidate(base, m) != Candidate(base, n - 1) {
      CandidatesDiffer(base, m, n - 1);
    }
  }

  lemma {:induction false} CandidatesCount(base: string, n: nat)
    requires 2 <= n <= 10000
    ensures |CandidatesBelow(base, n)| == n - 2
  {
    if n == 2 {
      assert CandidatesBelow(base, 2) == {};
    } else {
      CandidatesCount(base, n - 1);
      LastIsNew(base, n);
    }
  }

  lemma {:induction false} SmallerSet(a: set<string>, b: set<string>)
    requires a <= b
    ensures |a| <= |b|
  {
    assert b == a + (b - a);
  }

  /** Choosing fails only when 9998 different names or more are taken. */
  lemma FailingTakesManyNames(lower: string, taken: seq<string>)
    requires forall n :: 2 <= n < 10000 ==> Candidate(BaseSlug(lower), n) in taken
    ensures |Names(taken)| >= 9998
  {
    CandidatesCount(BaseSlug(lower), 10000);
    SmallerSet(CandidatesBelow(BaseSlug(lower), 10000), Names(taken));
  }
}
