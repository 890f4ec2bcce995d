/** Lifting a container id out of a cgroup file: the ordered patterns, what they find stated
    without any matcher, and the layouts they are for. */
module ContainerId {
  import opened Common
  import opened Regex

  // ----- the patterns -----

  const ID_LENGTH: nat := 64

  const RUNTIMES: Re := Either(Lit("cri-containerd"), Either(Lit("crio"), Either(Lit("docker"), Lit("libpod"))))

  /** The captured run and the boundary consumed after it. */
  const TAIL: Re := Then(Capture(Exactly(ID_LENGTH, HexDigit)), Either(One(NotHexDigit), AtEnd))

  const DELIMITED_TAIL: Re := Then(One(DashOrSlash), TAIL)

  const SLASH_TAIL: Re := Then(Lit("/"), TAIL)

  const BY_RUNTIME: Re := Then(RUNTIMES, DELIMITED_TAIL)
  const BY_KUBEPODS: Re := Then(Lit("/kubepods"), Then(LazyMany(NotNewline), SLASH_TAIL))
  const CATCH_ALL: Re := DELIMITED_TAIL

  const CONTAINER_ID_PATTERNS: seq<Re> := [BY_RUNTIME, BY_KUBEPODS, CATCH_ALL]

  /** The first pattern that is found and captures. */
  function FirstCapture(patterns: seq<Re>, s: string): Option<string> {
    if patterns == [] then None
    else
      match Find(patterns[0], s)
      case Some(Match(_, Some(span))) =>
        if span.0 <= span.1 <= |s| then Some(s[span.0..span.1]) else None
      case _ => FirstCapture(patterns[1..], s)
  }

  function ExtractContainerId(cgroup: string): Option<string> {
    FirstCapture(CONTAINER_ID_PATTERNS, cgroup)
  }

  // ----- what the patterns are for -----

  /** Sixty-four hex digits that no further one follows. */
  predicate HexRun(s: string, p: nat) {
    && p + ID_LENGTH <= |s|
    && AllHex(s, p, p + ID_LENGTH)
    && (p + ID_LENGTH == |s| || !IsHex(s[p + ID_LENGTH]))
  }

  predicate Delimited(s: string, p: nat) {
    HexRun(s, p) && p > 0 && InClass(s[p - 1], DashOrSlash)
  }

  predicate LiteralAt(s: string, i: nat, text: string) {
    i + |text| <= |s| && s[i..i + |text|] == text
  }

  const RUNTIME_NAMES: seq<string> := ["cri-containerd", "crio", "docker", "libpod"]

  /** A runtime's name starts at `i` and a delimited run follows it. */
  predicate RuntimeAt(s: string, i: nat, name: string) {
    LiteralAt(s, i, name) && Delimited(s, i + |name| + 1)
  }

  ghost predicate RuntimeRun(s: string, p: nat) {
    exists k: nat :: k < |RUNTIME_NAMES| && RuntimeRunOf(s, p, k)
  }

  predicate RuntimeRunOf(s: string, p: nat, k: nat)
    requires k < |RUNTIME_NAMES|
  {
    |RUNTIME_NAMES[k]| + 1 <= p && RuntimeAt(s, p - 1 - |RUNTIME_NAMES[k]|, RUNTIME_NAMES[k])
  }

  predicate OneLine(s: string, from: nat, to: nat)
    requires from <= to <= |s|
  {
    AllInClass(s, from, to, NotNewline)
  }

  const KUBEPODS := "/kubepods"

  /** `/kubepods` starts at `k`, and on the same line a later `/` leads into the run at `p`. */
  predicate KubepodsReach(s: string, k: nat, p: nat) {
    && LiteralAt(s, k, KUBEPODS)
    && k + |KUBEPODS| + 1 <= p && HexRun(s, p) && s[p - 1] == '/'
    && OneLine(s, k + |KUBEPODS|, p - 1)
  }

  ghost predicate KubepodsRun(s: string, p: nat) {
    exists k: nat :: KubepodsReach(s, k, p)
  }

  ghost predicate FirstRuntimeRun(s: string, p: nat) {
    RuntimeRun(s, p) && forall q: nat :: RuntimeRun(s, q) ==> p <= q
  }

  ghost predicate FirstKubepodsRun(s: string, p: nat) {
    KubepodsRun(s, p) && forall q: nat :: KubepodsRun(s, q) ==> p <= q
  }

  ghost predicate FirstDelimited(s: string, p: nat) {
    Delimited(s, p) && forall q: nat :: Delimited(s, q) ==> p <= q
  }

  ghost predicate HasRuntimeRun(s: string) {
    exists p: nat :: RuntimeRun(s, p)
  }

  ghost predicate HasKubepodsRun(s: string) {
    exists p: nat :: KubepodsRun(s, p)
  }

  ghost predicate HasDelimited(s: string) {
    exists p: nat :: Delimited(s, p)
  }

  /** The position the three rules together choose: a runtime-prefixed run before any other, a
      run below `/kubepods` before a merely delimited one, and the first of its kind. */
  ghost predicate Chosen(s: string, p: nat) {
    if HasRuntimeRun(s) then FirstRuntimeRun(s, p)
    else if HasKubepodsRun(s) then FirstKubepodsRun(s, p)
    else FirstDelimited(s, p)
  }

  // ----- each pattern, start by start -----

  function TailMatch(s: string, p: nat): Match {
    Match(if p + ID_LENGTH == |s| then |s| else p + ID_LENGTH + 1, Some((p, p + ID_LENGTH)))
  }

  lemma CaptureMatches(s: string, p: nat)
    requires p <= |s|
    ensures Matches(Capture(Exactly(ID_LENGTH, HexDigit)), s, p) ==
            if p + ID_LENGTH <= |s| && AllHex(s, p, p + ID_LENGTH)
            then [Match(p + ID_LENGTH, Some((p, p + ID_LENGTH)))] else []
  {
    assert p + ID_LENGTH <= |s| ==>
        (AllHex(s, p, p + ID_LENGTH) <==> AllInClass(s, p, p + ID_LENGTH, HexDigit));
    var inner := Matches(Exactly(ID_LENGTH, HexDigit), s, p);
    if inner != [] {
      assert inner == [Match(p + ID_LENGTH, None)];
    }
  }

  lemma BoundaryMatches(s: string, e: nat)
    requires e <= |s|
    ensures Matches(Either(One(NotHexDigit), AtEnd), s, e) ==
            if e == |s| then [Match(e, None)] else if IsHex(s[e]) then [] else [Match(e + 1, None)]
  {
  }

  lemma TailMatches(s: string, p: nat)
    requires p <= |s|
    ensures Matches(TAIL, s, p) == if HexRun(s, p) then [TailMatch(s, p)] else []
  {
    CaptureMatches(s, p);
    var run := Matches(Capture(Exactly(ID_LENGTH, HexDigit)), s, p);
    if run != [] {
      var e := p + ID_LENGTH;
      BoundaryMatches(s, e);
      assert run == [Match(e, Some((p, e)))] && run[1..] == [];
      var ns := Matches(Either(One(NotHexDigit), AtEnd), s, e);
      assert Continue(run, Either(One(NotHexDigit), AtEnd), s) ==
             seq(|ns|, k requires 0 <= k < |ns| => Joined(run[0], ns[k]));
    }
  }

  lemma DelimitedTailMatches(s: string, i: nat)
    requires i <= |s|
    ensures Matches(DELIMITED_TAIL, s, i) == if Delimited(s, i + 1) then [TailMatch(s, i + 1)] else []
  {
    if i < |s| && InClass(s[i], DashOrSlash) {
      ContinueOne(i + 1, TAIL, s);
      TailMatches(s, i + 1);
    }
  }

  lemma SlashTailMatches(s: string, i: nat)
    requires i <= |s|
    ensures Matches(SLASH_TAIL, s, i) ==
            if i < |s| && s[i] == '/' && HexRun(s, i + 1) then [TailMatch(s, i + 1)] else []
  {
    if i < |s| {
      assert s[i..i + 1] == [s[i]];
      if s[i] == '/' {
        ContinueOne(i + 1, TAIL, s);
        TailMatches(s, i + 1);
      }
    }
  }

  lemma LiteralThen(text: string, re: Re, s: string, i: nat)
    requires i <= |s|
    ensures Matches(Then(Lit(text), re), s, i) == if LiteralAt(s, i, text) then Matches(re, s, i + |text|) else []
  {
    ThenContinues(Lit(text), re, s, i);
    if LiteralAt(s, i, text) {
      ContinueOne(i + |text|, re, s);
    } else {
      assert Continue([], re, s) == [];
    }
  }

  function RuntimeMatches(s: string, i: nat, k: nat): seq<Match>
    requires k <= |RUNTIME_NAMES|
    decreases |RUNTIME_NAMES| - k
  {
    if k == |RUNTIME_NAMES| then []
    else
      (if RuntimeAt(s, i, RUNTIME_NAMES[k]) then [TailMatch(s, i + |RUNTIME_NAMES[k]| + 1)] else [])
      + RuntimeMatches(s, i, k + 1)
  }

  lemma RuntimeThen(s: string, i: nat, name: string, re: Re)
    requires i <= |s|
    requires LiteralAt(s, i, name) ==>
               Matches(re, s, i + |name|) ==
               if Delimited(s, i + |name| + 1) then [TailMatch(s, i + |name| + 1)] else []
    ensures Matches(Then(Lit(name), re), s, i) ==
            if RuntimeAt(s, i, name) then [TailMatch(s, i + |name| + 1)] else []
  {
    LiteralThen(name, re, s, i);
  }

  lemma OneRuntime(s: string, i: nat, name: string)
    requires i <= |s|
    ensures Matches(Then(Lit(name), DELIMITED_TAIL), s, i) ==
            if RuntimeAt(s, i, name) then [TailMatch(s, i + |name| + 1)] else []
  {
    if LiteralAt(s, i, name) {
      DelimitedTailMatches(s, i + |name|);
    }
    RuntimeThen(s, i, name, DELIMITED_TAIL);
  }

  lemma RuntimeMatchesAre(s: string, i: nat)
    requires i <= |s|
    ensures Matches(BY_RUNTIME, s, i) == RuntimeMatches(s, i, 0)
  {
    var a, b, c, d := Lit("cri-containerd"), Lit("crio"), Lit("docker"), Lit("libpod");
    EitherThen(a, Either(b, Either(c, d)), DELIMITED_TAIL, s, i);
    EitherThen(b, Either(c, d), DELIMITED_TAIL, s, i);
    EitherThen(c, d, DELIMITED_TAIL, s, i);
    OneRuntime(s, i, "cri-containerd");
    OneRuntime(s, i, "crio");
    OneRuntime(s, i, "docker");
    OneRuntime(s, i, "libpod");
    assert RuntimeMatches(s, i, 4) == [];
    assert RuntimeMatches(s, i, 3) == Matches(Then(d, DELIMITED_TAIL), s, i);
    assert RuntimeMatches(s, i, 2) == Matches(Then(c, DELIMITED_TAIL), s, i) + RuntimeMatches(s, i, 3);
    assert RuntimeMatches(s, i, 1) == Matches(Then(b, DELIMITED_TAIL), s, i) + RuntimeMatches(s, i, 2);
  }

  lemma {:induction false} RuntimeMatchesEmptyIff(s: string, i: nat, k: nat)
    requires k <= |RUNTIME_NAMES|
    ensures RuntimeMatches(s, i, k) == [] <==>
            forall j :: k <= j < |RUNTIME_NAMES| ==> !RuntimeAt(s, i, RUNTIME_NAMES[j])
    ensures RuntimeMatches(s, i, k) != [] ==>
              exists j :: k <= j < |RUNTIME_NAMES| && RuntimeAt(s, i, RUNTIME_NAMES[j])
                          && RuntimeMatches(s, i, k)[0] == TailMatch(s, i + |RUNTIME_NAMES[j]| + 1)
    decreases |RUNTIME_NAMES| - k
  {
    if k < |RUNTIME_NAMES| {
      RuntimeMatchesEmptyIff(s, i, k + 1);
    }
  }

  /** Two runtime-prefixed runs lie in the order of their prefixes' starts: a run inside the
      other's name or separator would have to contain a delimiter. */
  lemma RuntimeRunsInOrder(s: string, i: nat, name: string, i': nat, name': string)
    requires RuntimeAt(s, i, name) && RuntimeAt(s, i', name') && i <= i' && |name| < ID_LENGTH && name' != ""
    ensures i + |name| + 1 <= i' + |name'| + 1
  {
  }

  lemma RuntimeStartMeans(s: string, i: nat)
    requires i <= |s|
    ensures Matches(BY_RUNTIME, s, i) == [] <==> forall k: nat :: k < |RUNTIME_NAMES| ==> !RuntimeAt(s, i, RUNTIME_NAMES[k])
    ensures Matches(BY_RUNTIME, s, i) != [] ==>
              exists k: nat :: k < |RUNTIME_NAMES| && RuntimeRunOf(s, i + |RUNTIME_NAMES[k]| + 1, k)
                               && Matches(BY_RUNTIME, s, i)[0] == TailMatch(s, i + |RUNTIME_NAMES[k]| + 1)
  {
    RuntimeMatchesAre(s, i);
    RuntimeMatchesEmptyIff(s, i, 0);
    if RuntimeMatches(s, i, 0) != [] {
      var k :| 0 <= k < |RUNTIME_NAMES| && RuntimeAt(s, i, RUNTIME_NAMES[k])
               && RuntimeMatches(s, i, 0)[0] == TailMatch(s, i + |RUNTIME_NAMES[k]| + 1);
      assert i + |RUNTIME_NAMES[k]| + 1 - 1 - |RUNTIME_NAMES[k]| == i;
      assert RuntimeRunOf(s, i + |RUNTIME_NAMES[k]| + 1, k);
    }
  }

  lemma NotBeforeFirstRuntime(s: string, i: nat, k: nat, q: nat, k': nat)
    requires k < |RUNTIME_NAMES| && RuntimeRunOf(s, i + |RUNTIME_NAMES[k]| + 1, k)
    requires k' < |RUNTIME_NAMES| && RuntimeRunOf(s, q, k') && i <= q - 1 - |RUNTIME_NAMES[k']|
    ensures i + |RUNTIME_NAMES[k]| + 1 <= q
  {
    assert i + |RUNTIME_NAMES[k]| + 1 - 1 - |RUNTIME_NAMES[k]| == i;
    RuntimeRunsInOrder(s, i, RUNTIME_NAMES[k], q - 1 - |RUNTIME_NAMES[k']|, RUNTIME_NAMES[k']);
  }

  lemma RuntimeRunHasStart(s: string, q: nat, k: nat)
    requires k < |RUNTIME_NAMES| && RuntimeRunOf(s, q, k)
    ensures var start := FirstStart(BY_RUNTIME, s, 0);
            start.Some? && start.value <= q - 1 - |RUNTIME_NAMES[k]|
  {
    RuntimeStartMeans(s, q - 1 - |RUNTIME_NAMES[k]|);
  }

  lemma RuntimeFoundAt(s: string, i: nat) returns (k: nat)
    requires FirstStart(BY_RUNTIME, s, 0) == Some(i)
    ensures k < |RUNTIME_NAMES| && RuntimeRunOf(s, i + |RUNTIME_NAMES[k]| + 1, k)
    ensures Find(BY_RUNTIME, s) == Some(TailMatch(s, i + |RUNTIME_NAMES[k]| + 1))
  {
    RuntimeStartMeans(s, i);
    k :| k < |RUNTIME_NAMES| && RuntimeRunOf(s, i + |RUNTIME_NAMES[k]| + 1, k)
         && Matches(BY_RUNTIME, s, i)[0] == TailMatch(s, i + |RUNTIME_NAMES[k]| + 1);
  }

  /** The runtime pattern finds the first runtime-prefixed run. */
  lemma ByRuntime(s: string) returns (p: nat)
    ensures Find(BY_RUNTIME, s).None? <==> !HasRuntimeRun(s)
    ensures Find(BY_RUNTIME, s).Some? ==> FirstRuntimeRun(s, p) && Find(BY_RUNTIME, s) == Some(TailMatch(s, p))
  {
    p := 0;
    var start := FirstStart(BY_RUNTIME, s, 0);
    forall q: nat, k: nat | k < |RUNTIME_NAMES| && RuntimeRunOf(s, q, k)
      ensures start.Some? && start.value <= q - 1 - |RUNTIME_NAMES[k]|
    {
      RuntimeRunHasStart(s, q, k);
    }
    if start.Some? {
      var k := RuntimeFoundAt(s, start.value);
      p := start.value + |RUNTIME_NAMES[k]| + 1;
      assert RuntimeRun(s, p);
      forall q: nat | RuntimeRun(s, q)
        ensures p <= q
      {
        var k': nat :| k' < |RUNTIME_NAMES| && RuntimeRunOf(s, q, k');
        NotBeforeFirstRuntime(s, start.value, k, q, k');
      }
    }
  }

  /** From `j` on the line: the preferred match of the lazy part is the nearest run. */
  predicate SlashRunAt(s: string, j: nat) {
    j < |s| && s[j] == '/' && HexRun(s, j + 1)
  }

  /** The first such `/` from `j` on, with no newline on the way. */
  ghost predicate NearestSlash(s: string, j: nat, q: nat) {
    && j <= q < |s| && OneLine(s, j, q) && SlashRunAt(s, q)
    && (forall r :: j <= r < q ==> !SlashRunAt(s, r))
  }

  ghost predicate NoSlash(s: string, j: nat) {
    forall q :: j <= q < |s| && OneLine(s, j, q) ==> !SlashRunAt(s, q)
  }

  lemma LazySlash(s: string, j: nat) returns (q: nat)
    requires j <= |s|
    ensures var ms := Matches(Then(LazyMany(NotNewline), SLASH_TAIL), s, j);
            && (ms == [] <==> NoSlash(s, j))
            && (ms != [] ==> NearestSlash(s, j, q) && ms[0] == TailMatch(s, q + 1))
  {
    q := LazyNearest(NotNewline, SLASH_TAIL, s, j);
    forall r: nat | r <= |s|
      ensures r in Hits(SLASH_TAIL, s) <==> SlashRunAt(s, r)
    {
      SlashTailMatches(s, r);
    }
    if Matches(Then(LazyMany(NotNewline), SLASH_TAIL), s, j) != [] {
      SlashTailMatches(s, q);
    }
  }

  ghost predicate NearestReach(s: string, k: nat, p: nat) {
    KubepodsReach(s, k, p) && forall q: nat :: KubepodsReach(s, k, q) ==> p <= q
  }

  lemma ReachIsSlashRun(s: string, k: nat, p: nat)
    requires LiteralAt(s, k, KUBEPODS) && k + |KUBEPODS| < p <= |s|
    ensures KubepodsReach(s, k, p) <==> OneLine(s, k + |KUBEPODS|, p - 1) && SlashRunAt(s, p - 1)
  {
  }

  lemma SlashIsReach(s: string, k: nat, j: nat)
    requires LiteralAt(s, k, KUBEPODS) && j == k + |KUBEPODS|
    ensures NoSlash(s, j) <==> forall q: nat :: !KubepodsReach(s, k, q)
    ensures forall q: nat :: NearestSlash(s, j, q) ==> NearestReach(s, k, q + 1)
  {
    forall p: nat | j < p <= |s|
      ensures KubepodsReach(s, k, p) <==> OneLine(s, j, p - 1) && SlashRunAt(s, p - 1)
    {
      ReachIsSlashRun(s, k, p);
    }
    forall q: nat | j <= q < |s| && OneLine(s, j, q) && SlashRunAt(s, q)
      ensures KubepodsReach(s, k, q + 1)
    {
      ReachIsSlashRun(s, k, q + 1);
    }
  }

  lemma ByKubepodsAt(s: string, k: nat) returns (p: nat)
    requires k <= |s|
    ensures Matches(BY_KUBEPODS, s, k) == [] <==> forall q: nat :: !KubepodsReach(s, k, q)
    ensures Matches(BY_KUBEPODS, s, k) != [] ==> NearestReach(s, k, p) && Matches(BY_KUBEPODS, s, k)[0] == TailMatch(s, p)
  {
    p := 0;
    LiteralThen(KUBEPODS, Then(LazyMany(NotNewline), SLASH_TAIL), s, k);
    if LiteralAt(s, k, KUBEPODS) {
      var q := LazySlash(s, k + |KUBEPODS|);
      SlashIsReach(s, k, k + |KUBEPODS|);
      p := q + 1;
    }
  }

  /** A run reached from a later `/kubepods` is no nearer than the nearest reached from an
      earlier one: were it nearer, it would be reached from the earlier one too. */
  lemma NearestFromEarlier(s: string, k: nat, p: nat, k': nat, q: nat)
    requires NearestReach(s, k, p) && KubepodsReach(s, k', q) && k <= k'
    ensures p <= q
  {
    if q <= p {
      assert KubepodsReach(s, k, q);
    }
  }

  /** The kubepods pattern finds the first run that has `/kubepods` earlier on its line. */
  lemma ByKubepods(s: string) returns (p: nat)
    ensures Find(BY_KUBEPODS, s).None? <==> !HasKubepodsRun(s)
    ensures Find(BY_KUBEPODS, s).Some? ==> FirstKubepodsRun(s, p) && Find(BY_KUBEPODS, s) == Some(TailMatch(s, p))
  {
    p := 0;
    var start := FirstStart(BY_KUBEPODS, s, 0);
    forall k: nat, q: nat | KubepodsReach(s, k, q)
      ensures start.Some? && start.value <= k
    {
      var _ := ByKubepodsAt(s, k);
    }
    if start.Some? {
      var k := start.value;
      p := ByKubepodsAt(s, k);
      assert KubepodsRun(s, p);
      forall q: nat | KubepodsRun(s, q)
        ensures p <= q
      {
        var k': nat :| KubepodsReach(s, k', q);
        NearestFromEarlier(s, k, p, k', q);
      }
    }
  }

  /** The catch-all finds the first delimited run. */
  lemma ByCatchAll(s: string) returns (p: nat)
    ensures Find(CATCH_ALL, s).None? <==> !HasDelimited(s)
    ensures Find(CATCH_ALL, s).Some? ==> FirstDelimited(s, p) && Find(CATCH_ALL, s) == Some(TailMatch(s, p))
  {
    p := 0;
    var start := FirstStart(CATCH_ALL, s, 0);
    forall q: nat | Delimited(s, q)
      ensures start.Some? && start.value <= q - 1
    {
      DelimitedTailMatches(s, q - 1);
    }
    if start.Some? {
      DelimitedTailMatches(s, start.value);
      p := start.value + 1;
    }
  }

  // ----- the extraction as a whole -----

  lemma KindsAreDelimited(s: string, p: nat)
    ensures RuntimeRun(s, p) ==> Delimited(s, p)
    ensures KubepodsRun(s, p) ==> Delimited(s, p)
  {
  }

  function TextAt(s: string, p: nat): string
    requires p + ID_LENGTH <= |s|
  {
    s[p..p + ID_LENGTH]
  }

  lemma FirstCaptureOf(patterns: seq<Re>, s: string, p: nat)
    requires patterns != []
    requires Find(patterns[0], s).Some? ==> HexRun(s, p) && Find(patterns[0], s) == Some(TailMatch(s, p))
    ensures FirstCapture(patterns, s) ==
            if Find(patterns[0], s).Some? then Some(TextAt(s, p)) else FirstCapture(patterns[1..], s)
  {
  }

  /** Extraction meets its specification on every text: it takes the chosen run, and takes
      nothing exactly when the text has no delimited run at all. */
  lemma ExtractsChosen(s: string) returns (p: nat)
    ensures ExtractContainerId(s).None? <==> !HasDelimited(s)
    ensures ExtractContainerId(s).Some? ==>
              Chosen(s, p) && Delimited(s, p) && ExtractContainerId(s) == Some(TextAt(s, p))
  {
    var a := ByRuntime(s);
    var b := ByKubepods(s);
    var c := ByCatchAll(s);
    KindsAreDelimited(s, a);
    KindsAreDelimited(s, b);
    p := if HasRuntimeRun(s) then a else if HasKubepodsRun(s) then b else c;
    var two, one := [BY_KUBEPODS, CATCH_ALL], [CATCH_ALL];
    assert CONTAINER_ID_PATTERNS[1..] == two && two[1..] == one && one[1..] == [];
    FirstCaptureOf(CONTAINER_ID_PATTERNS, s, a);
    FirstCaptureOf(two, s, b);
    FirstCaptureOf(one, s, c);
  }

  /** At most one position is chosen, so the specification leaves no freedom. */
  lemma ChosenIsUnique(s: string, p: nat, q: nat)
    requires Chosen(s, p) && Chosen(s, q)
    ensures p == q
  {
  }

  /** A hex run of exactly 64 with no hex digit on either side. */
  predicate MaximalRun(s: string, p: nat) {
    HexRun(s, p) && (p == 0 || !IsHex(s[p - 1]))
  }

  /** What is extracted is a whole lower-case hex run of exactly 64, never part of a longer one. */
  lemma ExtractsMaximalRun(s: string)
    ensures ExtractContainerId(s).Some? ==>
              exists p: nat :: MaximalRun(s, p) && ExtractContainerId(s) == Some(TextAt(s, p))
  {
    var p := ExtractsChosen(s);
    assert Delimited(s, p) ==> MaximalRun(s, p);
  }
}
