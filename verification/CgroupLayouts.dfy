/** The cgroup lines the patterns are meant for: rendering any of them and extracting gives the
    id back, alone or anywhere in a file of such lines. */
module CgroupLayouts {
  import opened Common
  import opened Regex
  import opened ContainerId

  datatype Layout =
    | ContainerdSystemd
    | CrioSystemd
    | DockerSystemd
    | DockerCgroupfs
    | KubeletBurstable
    | KubeletGuaranteed

  /** What stands between the surrounding path and the id. */
  function Marker(layout: Layout, uid: string): string {
    match layout
    case ContainerdSystemd => "/cri-containerd-"
    case CrioSystemd => "/crio-"
    case DockerSystemd => "/docker-"
    case DockerCgroupfs => "/docker/"
    case KubeletBurstable => "/kubepods/burstable/" + ("pod" + uid) + "/"
    case KubeletGuaranteed => "/kubepods/" + ("pod" + uid) + "/"
  }

  function Suffix(layout: Layout): string {
    if layout.ContainerdSystemd? || layout.CrioSystemd? || layout.DockerSystemd? then ".scope" else ""
  }

  function Render(layout: Layout, path: string, uid: string, id: string): string {
    path + Marker(layout, uid) + id + Suffix(layout)
  }

  predicate IsId(id: string) {
    |id| == ID_LENGTH && AllHex(id, 0, |id|)
  }

  /** Every delimited run of `s` spells `id`. */
  ghost predicate OnlyRuns(s: string, id: string) {
    forall p: nat :: Delimited(s, p) ==> TextAt(s, p) == id
  }

  ghost predicate NoRuns(s: string) {
    forall p: nat :: !Delimited(s, p)
  }

  predicate StartsOutsideHex(s: string) {
    s != "" ==> !IsHex(s[0])
  }

  /** Runs of the second part are the runs of the whole, moved along. */
  lemma RunMoves(a: string, b: string, p: nat)
    requires p > 0
    ensures Delimited(a + b, |a| + p) <==> Delimited(b, p)
    ensures Delimited(b, p) ==> TextAt(a + b, |a| + p) == TextAt(b, p)
  {
    var s := a + b;
    assert forall i :: 0 <= i < |b| ==> s[|a| + i] == b[i];
    assert s[|a|..] == b;
    if p + ID_LENGTH <= |b| {
      assert s[|a| + p..|a| + p + ID_LENGTH] == b[p..p + ID_LENGTH];
      AllHexByText(s, |a| + p);
      AllHexByText(b, p);
    }
  }

  lemma AllHexByText(s: string, p: nat)
    requires p + ID_LENGTH <= |s|
    ensures AllHex(s, p, p + ID_LENGTH) <==> AllHex(TextAt(s, p), 0, ID_LENGTH)
  {
    var t := TextAt(s, p);
    assert forall i :: p <= i < p + ID_LENGTH ==> s[i] == t[i - p];
    assert forall i :: 0 <= i < ID_LENGTH ==> t[i] == s[p + i];
  }

  /** A delimited run of a concatenation whose second part starts outside hex lies in one part. */
  lemma RunInOnePart(a: string, b: string, p: nat)
    requires StartsOutsideHex(b) && Delimited(a + b, p)
    ensures || (p + ID_LENGTH <= |a| && Delimited(a, p) && TextAt(a, p) == TextAt(a + b, p))
            || (p > |a| && Delimited(b, p - |a|) && TextAt(b, p - |a|) == TextAt(a + b, p))
  {
    var s := a + b;
    assert b != "" ==> s[|a|] == b[0];
    if p > |a| {
      RunMoves(a, b, p - |a|);
    } else {
      assert forall i :: 0 <= i < |a| ==> s[i] == a[i];
    }
  }

  lemma RunSurvives(a: string, b: string, p: nat)
    requires StartsOutsideHex(b) && Delimited(a, p)
    ensures Delimited(a + b, p) && TextAt(a + b, p) == TextAt(a, p)
  {
    var s := a + b;
    assert s[p - 1] == a[p - 1];
    assert forall i :: p <= i < p + ID_LENGTH ==> s[i] == a[i];
    assert p + ID_LENGTH < |a| ==> s[p + ID_LENGTH] == a[p + ID_LENGTH];
  }

  lemma OnlyRunsConcat(a: string, b: string, id: string)
    requires StartsOutsideHex(b) && OnlyRuns(a, id) && OnlyRuns(b, id)
    ensures OnlyRuns(a + b, id)
  {
    forall p: nat | Delimited(a + b, p)
      ensures TextAt(a + b, p) == id
    {
      RunInOnePart(a, b, p);
    }
  }

  lemma NoRunsConcat(a: string, b: string)
    requires StartsOutsideHex(b) && NoRuns(a) && NoRuns(b)
    ensures NoRuns(a + b)
  {
    forall p: nat
      ensures !Delimited(a + b, p)
    {
      if Delimited(a + b, p) {
        RunInOnePart(a, b, p);
      }
    }
  }

  lemma ShortHasNoRuns(s: string)
    requires |s| <= ID_LENGTH
    ensures NoRuns(s)
  {
  }

  lemma NoRunsIsOnlyRuns(s: string, id: string)
    requires NoRuns(s)
    ensures OnlyRuns(s, id)
  {
  }

  /** If the only delimited runs spell `id`, and there is one, `id` is what is extracted. */
  lemma ExtractsTheOnlyRun(s: string, id: string)
    requires OnlyRuns(s, id) && HasDelimited(s)
    ensures ExtractContainerId(s) == Some(id)
  {
    var p := ExtractsChosen(s);
  }

  // ----- one line -----

  predicate EndsInDelimiter(a: string) {
    a != "" && InClass(a[|a| - 1], DashOrSlash)
  }

  /** An id between a delimiter and a boundary is the one run of the line. */
  lemma IdBetween(a: string, id: string, c: string)
    requires IsId(id) && EndsInDelimiter(a) && StartsOutsideHex(c) && NoRuns(a) && NoRuns(c)
    ensures OnlyRuns(a + id + c, id) && Delimited(a + id + c, |a|)
  {
    var s := a + id;
    assert forall i :: 0 <= i < |id| ==> s[|a| + i] == id[i];
    assert TextAt(s, |a|) == id;
    assert Delimited(s, |a|);
    forall p: nat | Delimited(s, p)
      ensures p == |a|
    {
      DelimitedIsAtTheId(a, id, p);
    }
    NoRunsIsOnlyRuns(c, id);
    OnlyRunsConcat(s, c, id);
    RunSurvives(s, c, |a|);
  }

  /** Before a part that ends in a delimiter a run cannot reach past it. */
  lemma RunBefore(a: string, b: string, p: nat)
    requires EndsInDelimiter(a) && Delimited(a + b, p) && p < |a|
    ensures Delimited(a, p)
  {
    var s := a + b;
    assert forall i :: 0 <= i < |a| ==> s[i] == a[i];
    assert !IsHex(s[|a| - 1]);
  }

  lemma DelimitedIsAtTheId(a: string, id: string, p: nat)
    requires IsId(id) && EndsInDelimiter(a) && NoRuns(a) && Delimited(a + id, p)
    ensures p == |a|
  {
    if p < |a| {
      RunBefore(a, id, p);
    }
  }

  lemma MarkerIsClean(layout: Layout, path: string, uid: string)
    requires NoRuns(path) && NoRuns("pod" + uid)
    ensures NoRuns(path + Marker(layout, uid)) && EndsInDelimiter(path + Marker(layout, uid))
  {
    var marker := Marker(layout, uid);
    assert marker[0] == '/';
    ShortHasNoRuns("/");
    ShortHasNoRuns("/kubepods/burstable/");
    ShortHasNoRuns("/kubepods/");
    match layout {
      case KubeletBurstable =>
        NoRunsConcat("/kubepods/burstable/", "pod" + uid);
        NoRunsConcat("/kubepods/burstable/" + ("pod" + uid), "/");
      case KubeletGuaranteed =>
        NoRunsConcat("/kubepods/", "pod" + uid);
        NoRunsConcat("/kubepods/" + ("pod" + uid), "/");
      case _ => ShortHasNoRuns(marker);
    }
    NoRunsConcat(path, marker);
  }

  /** Round trip: whatever the layout, the surrounding path and the pod, so long as they hold
      no delimited run of their own, the rendered line gives back the id put into it. */
  lemma LayoutRoundTrip(layout: Layout, path: string, uid: string, id: string)
    requires IsId(id) && NoRuns(path) && NoRuns("pod" + uid)
    ensures OnlyRuns(Render(layout, path, uid, id), id) && HasDelimited(Render(layout, path, uid, id))
    ensures ExtractContainerId(Render(layout, path, uid, id)) == Some(id)
  {
    MarkerIsClean(layout, path, uid);
    ShortHasNoRuns(Suffix(layout));
    IdBetween(path + Marker(layout, uid), id, Suffix(layout));
    ExtractsTheOnlyRun(Render(layout, path, uid, id), id);
  }

  // ----- a file of lines -----

  function File(lines: seq<string>): string {
    if lines == [] then "" else lines[0] + ("\n" + File(lines[1..]))
  }

  lemma NewlineFirst(s: string, id: string)
    requires OnlyRuns(s, id)
    ensures OnlyRuns("\n" + s, id)
    ensures HasDelimited(s) <==> HasDelimited("\n" + s)
  {
    var t := "\n" + s;
    assert forall i :: 0 <= i < |s| ==> t[i + 1] == s[i];
    forall p: nat | Delimited(t, p)
      ensures p > 0 && Delimited(s, p - 1) && TextAt(s, p - 1) == TextAt(t, p)
    {
      assert p != 1;
    }
    if p: nat :| Delimited(s, p) {
      assert Delimited(t, p + 1);
    }
  }

  lemma HasRunConcat(a: string, b: string)
    requires StartsOutsideHex(b)
    ensures HasDelimited(a + b) <==> HasDelimited(a) || HasDelimited(b)
  {
    if p: nat :| Delimited(a + b, p) {
      RunInOnePart(a, b, p);
    }
    if p: nat :| Delimited(a, p) {
      RunSurvives(a, b, p);
    }
    if HasDelimited(b) {
      LaterRun(a, b);
    }
  }

  lemma {:induction false} FileRuns(lines: seq<string>, id: string)
    requires forall i :: 0 <= i < |lines| ==> OnlyRuns(lines[i], id)
    ensures OnlyRuns(File(lines), id)
    ensures HasDelimited(File(lines)) <==> exists i :: 0 <= i < |lines| && HasDelimited(lines[i])
  {
    if lines != [] {
      var rest := "\n" + File(lines[1..]);
      FileRuns(lines[1..], id);
      NewlineFirst(File(lines[1..]), id);
      OnlyRunsConcat(lines[0], rest, id);
      HasRunConcat(lines[0], rest);
      if i :| 0 <= i < |lines| && HasDelimited(lines[i]) {
        assert i > 0 ==> lines[i] == lines[1..][i - 1];
      }
      if j :| 0 <= j < |lines[1..]| && HasDelimited(lines[1..][j]) {
        assert lines[j + 1] == lines[1..][j];
      }
    }
  }

  lemma LaterRun(a: string, b: string)
    requires HasDelimited(b)
    ensures HasDelimited(a + b)
  {
    var p: nat :| Delimited(b, p);
    var s := a + b;
    assert forall i :: 0 <= i < |b| ==> s[|a| + i] == b[i];
    assert Delimited(s, |a| + p);
  }

  /** One line of a process's cgroup file: its container's, or one that names no container. */
  datatype Line =
    | OfContainer(layout: Layout, path: string, uid: string)
    | Elsewhere(text: string)

  function TextOf(line: Line, id: string): string {
    match line
    case OfContainer(layout, path, uid) => Render(layout, path, uid, id)
    case Elsewhere(text) => text
  }

  function Texts(lines: seq<Line>, id: string): (texts: seq<string>)
    ensures |texts| == |lines| && forall i :: 0 <= i < |lines| ==> texts[i] == TextOf(lines[i], id)
  {
    if lines == [] then [] else [TextOf(lines[0], id)] + Texts(lines[1..], id)
  }

  /** What surrounds the id holds no delimited run of its own. */
  ghost predicate Clean(line: Line) {
    match line
    case OfContainer(_, path, uid) => NoRuns(path) && NoRuns("pod" + uid)
    case Elsewhere(text) => NoRuns(text)
  }

  /** The multi-line file of a process yields its container's id if any line carries it, however
      often and in whatever layouts, and otherwise nothing. */
  lemma FileRoundTrip(lines: seq<Line>, id: string)
    requires IsId(id) && forall line :: line in lines ==> Clean(line)
    ensures ExtractContainerId(File(Texts(lines, id))) ==
            if exists line :: line in lines && line.OfContainer? then Some(id) else None
  {
    var texts := Texts(lines, id);
    forall i | 0 <= i < |lines|
      ensures OnlyRuns(texts[i], id) && (HasDelimited(texts[i]) <==> lines[i].OfContainer?)
    {
      LineRuns(lines[i], id);
    }
    FileRuns(texts, id);
    if line :| line in lines && line.OfContainer? {
      var i :| 0 <= i < |lines| && lines[i] == line;
      assert HasDelimited(texts[i]);
      ExtractsTheOnlyRun(File(texts), id);
    } else {
      var p := ExtractsChosen(File(texts));
    }
  }

  lemma LineRuns(line: Line, id: string)
    requires IsId(id) && Clean(line)
    ensures OnlyRuns(TextOf(line, id), id) && (HasDelimited(TextOf(line, id)) <==> line.OfContainer?)
  {
    match line
    case OfContainer(layout, path, uid) => LayoutRoundTrip(layout, path, uid, id);
    case Elsewhere(_) =>
  }
}
