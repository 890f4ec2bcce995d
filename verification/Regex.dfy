/** The fragment of regular expressions the container-id patterns use, with the meaning a
    leftmost-first engine gives it: at each start, all ways to match in order of preference. */
module Regex {
  import opened Common

  datatype Class =
    | HexDigit
    | NotHexDigit
    | DashOrSlash
    | NotNewline

  datatype Re =
    | Lit(text: string)
    | One(cls: Class)
    | Exactly(n: nat, cls: Class)
    | LazyMany(cls: Class)
    | Capture(inner: Re)
    | Either(left: Re, right: Re)
    | Then(first: Re, second: Re)
    | AtEnd

  /** Where a match ended, and the span the capture group took if it took part. */
  datatype Match = Match(end: nat, capture: Option<(nat, nat)>)

  predicate IsHex(c: char) {
    '0' <= c <= '9' || 'a' <= c <= 'f'
  }

  predicate InClass(c: char, cls: Class) {
    match cls
    case HexDigit => IsHex(c)
    case NotHexDigit => !IsHex(c)
    case DashOrSlash => c == '-' || c == '/'
    case NotNewline => c != '\n'
  }

  predicate AllHex(s: string, from: nat, to: nat)
    requires from <= to <= |s|
  {
    forall i :: from <= i < to ==> IsHex(s[i])
  }

  predicate AllInClass(s: string, from: nat, to: nat, cls: Class)
    requires from <= to <= |s|
  {
    forall i :: from <= i < to ==> InClass(s[i], cls)
  }

  function Captured(m: Match, from: nat): Match {
    Match(m.end, Some((from, m.end)))
  }

  /** The second part's capture if it has one, else the first's. */
  function Joined(m: Match, n: Match): Match {
    Match(n.end, if n.capture.Some? then n.capture else m.capture)
  }

  predicate Inside(ms: seq<Match>, s: string) {
    forall m :: m in ms ==> m.end <= |s|
  }

  /** Every way `re` can match `s` from `i`, most preferred first. */
  function Matches(re: Re, s: string, i: nat): (ms: seq<Match>)
    requires i <= |s|
    ensures Inside(ms, s)
    decreases re, 1, |s| - i
  {
    match re
    case Lit(text) => if i + |text| <= |s| && s[i..i + |text|] == text then [Match(i + |text|, None)] else []
    case One(cls) => if i < |s| && InClass(s[i], cls) then [Match(i + 1, None)] else []
    case Exactly(n, cls) => if i + n <= |s| && AllInClass(s, i, i + n, cls) then [Match(i + n, None)] else []
    case LazyMany(cls) => [Match(i, None)] + if i < |s| && InClass(s[i], cls) then Matches(re, s, i + 1) else []
    case Capture(inner) =>
      var ms := Matches(inner, s, i);
      seq(|ms|, k requires 0 <= k < |ms| => Captured(ms[k], i))
    case Either(left, right) => Matches(left, s, i) + Matches(right, s, i)
    case Then(first, second) => Continue(Matches(first, s, i), second, s)
    case AtEnd => if i == |s| then [Match(i, None)] else []
  }

  /** Each way in `ms` continued by each way to match `re` after it, in order. */
  function Continue(ms: seq<Match>, re: Re, s: string): (rs: seq<Match>)
    requires Inside(ms, s)
    ensures Inside(rs, s)
    decreases re, 2, |ms|
  {
    if ms == [] then []
    else
      var ns := Matches(re, s, ms[0].end);
      seq(|ns|, k requires 0 <= k < |ns| => Joined(ms[0], ns[k])) + Continue(ms[1..], re, s)
  }

  /** The first start from `i` on at which `re` matches at all. */
  function FirstStart(re: Re, s: string, i: nat): (r: Option<nat>)
    requires i <= |s|
    ensures r.Some? ==> i <= r.value <= |s| && Matches(re, s, r.value) != []
    ensures r.Some? ==> forall k :: i <= k < r.value ==> Matches(re, s, k) == []
    ensures r.None? ==> forall k :: i <= k <= |s| ==> Matches(re, s, k) == []
    decreases |s| - i
  {
    if Matches(re, s, i) != [] then Some(i)
    else if i < |s| then FirstStart(re, s, i + 1)
    else None
  }

  /** Leftmost-first search: the preferred match at the first start that has any. */
  function Find(re: Re, s: string): Option<Match> {
    match FirstStart(re, s, 0)
    case Some(i) => Some(Matches(re, s, i)[0])
    case None => None
  }

  // ----- laws of the matcher -----

  lemma {:induction false} ContinueConcat(ms: seq<Match>, ns: seq<Match>, re: Re, s: string)
    requires Inside(ms, s) && Inside(ns, s)
    ensures Continue(ms + ns, re, s) == Continue(ms, re, s) + Continue(ns, re, s)
  {
    if ms == [] {
      assert ms + ns == ns;
    } else {
      assert (ms + ns)[1..] == ms[1..] + ns;
      ContinueConcat(ms[1..], ns, re, s);
    }
  }

  lemma ThenContinues(a: Re, c: Re, s: string, i: nat)
    requires i <= |s|
    ensures Matches(Then(a, c), s, i) == Continue(Matches(a, s, i), c, s)
  {
  }

  /** Alternation distributes over what follows it. */
  lemma EitherThen(a: Re, b: Re, c: Re, s: string, i: nat)
    requires i <= |s|
    ensures Matches(Then(Either(a, b), c), s, i) == Matches(Then(a, c), s, i) + Matches(Then(b, c), s, i)
  {
    ThenContinues(a, c, s, i);
    ThenContinues(b, c, s, i);
    ThenContinues(Either(a, b), c, s, i);
    EitherIsBoth(a, b, s, i);
    ContinueConcat(Matches(a, s, i), Matches(b, s, i), c, s);
  }

  lemma EitherIsBoth(a: Re, b: Re, s: string, i: nat)
    requires i <= |s|
    ensures Matches(Either(a, b), s, i) == Matches(a, s, i) + Matches(b, s, i)
  {
  }

  /** One plain way to match, then `re`: the ways of `re` from there. */
  lemma ContinueOne(end: nat, re: Re, s: string)
    requires end <= |s|
    ensures Continue([Match(end, None)], re, s) == Matches(re, s, end)
  {
    var ns := Matches(re, s, end);
    assert Continue([Match(end, None)][1..], re, s) == [];
    forall k | 0 <= k < |ns|
      ensures Joined(Match(end, None), ns[k]) == ns[k]
    {
    }
  }

  /** A lazy run tries to stop here first, and only then takes one more character. */
  lemma LazyThen(cls: Class, re: Re, s: string, i: nat)
    requires i <= |s|
    ensures Matches(Then(LazyMany(cls), re), s, i) ==
            Matches(re, s, i) +
            if i < |s| && InClass(s[i], cls) then Matches(Then(LazyMany(cls), re), s, i + 1) else []
  {
    var more := if i < |s| && InClass(s[i], cls) then Matches(LazyMany(cls), s, i + 1) else [];
    ContinueConcat([Match(i, None)], more, re, s);
    ContinueOne(i, re, s);
  }

  /** Where `re` matches at all. */
  ghost function Hits(re: Re, s: string): set<nat> {
    set r: nat | r <= |s| && Matches(re, s, r) != []
  }

  ghost predicate NoneNear(cls: Class, hits: set<nat>, s: string, i: nat)
    requires i <= |s|
  {
    forall r: nat :: r in hits && i <= r <= |s| ==> !AllInClass(s, i, r, cls)
  }

  ghost predicate IsNearest(cls: Class, hits: set<nat>, s: string, i: nat, q: nat)
    requires i <= |s|
  {
    && i <= q <= |s| && AllInClass(s, i, q, cls) && q in hits
    && forall r: nat :: r in hits && i <= r ==> q <= r
  }

  lemma NearStep(cls: Class, hits: set<nat>, s: string, i: nat, q: nat)
    requires i < |s| && InClass(s[i], cls) && i !in hits
    ensures NoneNear(cls, hits, s, i + 1) ==> NoneNear(cls, hits, s, i)
    ensures IsNearest(cls, hits, s, i + 1, q) ==> IsNearest(cls, hits, s, i, q) && !NoneNear(cls, hits, s, i)
  {
    forall r | i + 1 <= r <= |s|
      ensures AllInClass(s, i, r, cls) <==> AllInClass(s, i + 1, r, cls)
    {
    }
  }

  lemma NearHere(cls: Class, hits: set<nat>, s: string, i: nat)
    requires i <= |s|
    ensures i in hits ==> IsNearest(cls, hits, s, i, i) && !NoneNear(cls, hits, s, i)
    ensures i !in hits && (i < |s| ==> !InClass(s[i], cls)) ==> NoneNear(cls, hits, s, i)
  {
    assert AllInClass(s, i, i, cls);
  }

  /** From `i` the lazy run either reaches no match of `re`, or prefers the nearest, at `q`. */
  ghost predicate PrefersNearest(cls: Class, re: Re, s: string, i: nat, q: nat)
    requires i <= |s|
  {
    var ms := Matches(Then(LazyMany(cls), re), s, i);
    && (ms == [] <==> NoneNear(cls, Hits(re, s), s, i))
    && (ms != [] ==> IsNearest(cls, Hits(re, s), s, i, q) && ms[0] == Matches(re, s, q)[0])
  }

  lemma NearestHere(cls: Class, re: Re, s: string, i: nat)
    requires i <= |s| && (Matches(re, s, i) != [] || i == |s| || !InClass(s[i], cls))
    ensures PrefersNearest(cls, re, s, i, i)
  {
    LazyThen(cls, re, s, i);
    NearHere(cls, Hits(re, s), s, i);
  }

  lemma NearestFurther(cls: Class, re: Re, s: string, i: nat, q: nat)
    requires i < |s| && Matches(re, s, i) == [] && InClass(s[i], cls)
    requires PrefersNearest(cls, re, s, i + 1, q)
    ensures PrefersNearest(cls, re, s, i, q)
  {
    LazyThen(cls, re, s, i);
    NearStep(cls, Hits(re, s), s, i, q);
  }

  /** A lazy run followed by `re` prefers the nearest place where `re` matches. */
  lemma {:induction false} LazyNearest(cls: Class, re: Re, s: string, i: nat) returns (q: nat)
    requires i <= |s|
    ensures PrefersNearest(cls, re, s, i, q)
    decreases |s| - i
  {
    q := i;
    if Matches(re, s, i) == [] && i < |s| && InClass(s[i], cls) {
      q := LazyNearest(cls, re, s, i + 1);
      NearestFurther(cls, re, s, i, q);
    } else {
      NearestHere(cls, re, s, i);
    }
  }
}
