/** Extraction in plain text, with an alphabet and lengths of its own: no class, no pattern and no
    named constant of the matcher stands between these statements and the text. */
module PlainExtraction {
  import opened Common
  import Regex
  import ContainerId
  import CgroupLayouts

  predicate PlainHex(c: char) {
    c in "0123456789abcdef"
  }

  /** Sixty-four characters of the alphabet. */
  predicate PlainId(t: string) {
    |t| == 64 && forall i :: 0 <= i < 64 ==> PlainHex(t[i])
  }

  /** An id stands at `p`, after a dash or a slash, and no further character of the alphabet
      follows it. */
  predicate PlainRun(s: string, p: nat) {
    && 0 < p && p + 64 <= |s|
    && (s[p - 1] == '-' || s[p - 1] == '/')
    && PlainId(s[p..p + 64])
    && (p + 64 == |s| || !PlainHex(s[p + 64]))
  }

  predicate EndsAt(s: string, e: nat, text: string) {
    |text| <= e <= |s| && s[e - |text|..e] == text
  }

  /** The delimiter before the run stands right after a runtime's name. */
  predicate AfterRuntime(s: string, p: nat) {
    && PlainRun(s, p)
    && (EndsAt(s, p - 1, "cri-containerd") || EndsAt(s, p - 1, "crio") || EndsAt(s, p - 1, "docker")
        || EndsAt(s, p - 1, "libpod"))
  }

  /** The delimiter before the run is a slash, with `/kubepods` at `k` before it on its line. */
  predicate AfterKubepodsAt(s: string, p: nat, k: nat) {
    && PlainRun(s, p) && s[p - 1] == '/'
    && k + 9 <= p - 1 && s[k..k + 9] == "/kubepods" && '\n' !in s[k + 9..p - 1]
  }

  ghost predicate AfterKubepods(s: string, p: nat) {
    exists k: nat :: AfterKubepodsAt(s, p, k)
  }

  // ----- the same things as the matcher's -----

  lemma Alphabet(c: char)
    ensures PlainHex(c) <==> Regex.IsHex(c)
  {
    var letters := "0123456789abcdef";
    assert letters[..8] == "01234567" && letters[8..] == "89abcdef";
    if Regex.IsHex(c) {
      var n := c as int;
      var i := if n < 'a' as int then n - '0' as int else n - 'a' as int + 10;
      assert letters[i] == c;
    }
  }

  lemma PlainIdIs(s: string, p: nat)
    requires p + 64 <= |s|
    ensures PlainId(s[p..p + 64]) <==> Regex.AllHex(s, p, p + 64)
  {
    var t := s[p..p + 64];
    forall i | 0 <= i < 64
      ensures PlainHex(t[i]) <==> Regex.IsHex(s[p + i])
    {
      assert t[i] == s[p + i];
      Alphabet(t[i]);
    }
    forall j | p <= j < p + 64
      ensures PlainHex(t[j - p]) <==> Regex.IsHex(s[j])
    {
    }
  }

  lemma PlainRunIs(s: string, p: nat)
    ensures PlainRun(s, p) <==> ContainerId.Delimited(s, p)
  {
    if p + 64 <= |s| {
      PlainIdIs(s, p);
      if p + 64 < |s| {
        Alphabet(s[p + 64]);
      }
    }
  }

  lemma RuntimeIs(s: string, p: nat)
    ensures AfterRuntime(s, p) <==> ContainerId.RuntimeRun(s, p)
  {
    PlainRunIs(s, p);
    var names := ContainerId.RUNTIME_NAMES;
    forall k: nat | k < 4
      ensures ContainerId.RuntimeRunOf(s, p, k) <==> PlainRun(s, p) && EndsAt(s, p - 1, names[k])
    {
      if |names[k]| + 1 <= p {
        assert p - 1 - |names[k]| + |names[k]| + 1 == p;
      }
    }
    assert names[0] == "cri-containerd" && names[1] == "crio" && names[2] == "docker" && names[3] == "libpod";
    if AfterRuntime(s, p) {
      assert exists k: nat :: k < 4 && ContainerId.RuntimeRunOf(s, p, k);
    }
  }

  lemma KubepodsAtIs(s: string, p: nat, k: nat)
    ensures AfterKubepodsAt(s, p, k) <==> ContainerId.KubepodsReach(s, k, p)
  {
    PlainRunIs(s, p);
    if k + 9 <= p - 1 && p <= |s| {
      assert ContainerId.OneLine(s, k + 9, p - 1) <==> '\n' !in s[k + 9..p - 1] by {
        var line := s[k + 9..p - 1];
        assert forall i :: k + 9 <= i < p - 1 ==> s[i] == line[i - (k + 9)];
        assert forall i :: 0 <= i < |line| ==> line[i] == s[k + 9 + i];
      }
    }
  }

  lemma KubepodsIs(s: string, p: nat)
    ensures AfterKubepods(s, p) <==> ContainerId.KubepodsRun(s, p)
  {
    forall k: nat
      ensures AfterKubepodsAt(s, p, k) <==> ContainerId.KubepodsReach(s, k, p)
    {
      KubepodsAtIs(s, p, k);
    }
  }

  // ----- the statements -----

  /** On every text: nothing is extracted exactly when no id stands after a delimiter; otherwise the
      text at `p` is, where `p` is the first after a runtime's name if there is one, else the first
      after `/kubepods` on its line if there is one, else the first of all. */
  lemma ExtractsInPlainText(s: string) returns (p: nat)
    ensures var r := ContainerId.ExtractContainerId(s);
            && (r.None? <==> forall q: nat :: !PlainRun(s, q))
            && (r.Some? ==> PlainRun(s, p) && r.value == s[p..p + 64])
            && (r.Some? ==>
                  if exists q: nat :: AfterRuntime(s, q) then
                    AfterRuntime(s, p) && forall q: nat :: AfterRuntime(s, q) ==> p <= q
                  else if exists q: nat :: AfterKubepods(s, q) then
                    AfterKubepods(s, p) && forall q: nat :: AfterKubepods(s, q) ==> p <= q
                  else forall q: nat :: PlainRun(s, q) ==> p <= q)
  {
    p := ContainerId.ExtractsChosen(s);
    forall q: nat
      ensures PlainRun(s, q) <==> ContainerId.Delimited(s, q)
      ensures AfterRuntime(s, q) <==> ContainerId.RuntimeRun(s, q)
      ensures AfterKubepods(s, q) <==> ContainerId.KubepodsRun(s, q)
    {
      PlainRunIs(s, q);
      RuntimeIs(s, q);
      KubepodsIs(s, q);
    }
  }

  /** What is extracted is always sixty-four characters of the alphabet. */
  lemma ExtractedIsPlainId(s: string)
    requires ContainerId.ExtractContainerId(s).Some?
    ensures PlainId(ContainerId.ExtractContainerId(s).value)
  {
    var p := ExtractsInPlainText(s);
  }

  /** And every sixty-four characters of the alphabet are extracted from every layout, whatever
      path and pod surround them, so long as those hold no id after a delimiter. */
  lemma PlainLayoutRoundTrip(layout: CgroupLayouts.Layout, path: string, uid: string, id: string)
    requires PlainId(id) && forall q: nat :: !PlainRun(path, q) && !PlainRun("pod" + uid, q)
    ensures ContainerId.ExtractContainerId(CgroupLayouts.Render(layout, path, uid, id)) == Some(id)
  {
    assert id[0..0 + 64] == id;
    PlainIdIs(id, 0);
    forall q: nat
      ensures !ContainerId.Delimited(path, q) && !ContainerId.Delimited("pod" + uid, q)
    {
      PlainRunIs(path, q);
      PlainRunIs("pod" + uid, q);
      assert !PlainRun(path, q);
    }
    CgroupLayouts.LayoutRoundTrip(layout, path, uid, id);
  }
}
