/** The start-up check of the kernel's `mark_victim` layout, and why passing it justifies the
    probe's decoding at fixed offsets. */
module LayoutCheck {
  import opened Common
  import opened TraceFormat
  import EventSource

  const REQUIRED_FIELDS: seq<Field> := [
    Field("pid", 8, 4),
    Field("comm", 12, 4),
    Field("total_vm", 16, 8),
    Field("anon_rss", 24, 8),
    Field("file_rss", 32, 8),
    Field("shmem_rss", 40, 8),
    Field("uid", 48, 4),
    Field("pgtables", 56, 8),
    Field("oom_score_adj", 64, 2)
  ]

  datatype Mismatch =
    | Missing(name: string)
    | Moved(name: string, expected: (nat, nat), found: (nat, nat))

  function FirstNamed(found: seq<Field>, name: string): Option<Field> {
    if found == [] then None
    else if found[0].name == name then Some(found[0])
    else FirstNamed(found[1..], name)
  }

  function Compare(want: Field, found: seq<Field>): Option<Mismatch> {
    match FirstNamed(found, want.name)
    case None => Some(Missing(want.name))
    case Some(field) =>
      if (field.offset, field.size) != (want.offset, want.size)
      then Some(Moved(want.name, (want.offset, want.size), (field.offset, field.size)))
      else None
  }

  function CompareAll(wanted: seq<Field>, found: seq<Field>): seq<Mismatch> {
    if wanted == [] then []
    else
      match Compare(wanted[0], found)
      case Some(mismatch) => [mismatch] + CompareAll(wanted[1..], found)
      case None => CompareAll(wanted[1..], found)
  }

  function CheckLayout(text: string): seq<Mismatch> {
    CompareAll(REQUIRED_FIELDS, ParseFormat(text))
  }

  // ----- what the check reports -----

  /** `found[k]` is the first field with its name. */
  predicate FirstAt(found: seq<Field>, k: nat, name: string) {
    k < |found| && found[k].name == name && forall j :: 0 <= j < k ==> found[j].name != name
  }

  predicate Absent(found: seq<Field>, name: string) {
    forall field :: field in found ==> field.name != name
  }

  lemma {:induction false} FirstNamedIsFirst(found: seq<Field>, name: string)
    ensures FirstNamed(found, name).None? <==> Absent(found, name)
    ensures forall k: nat :: FirstAt(found, k, name) ==> FirstNamed(found, name) == Some(found[k])
    ensures FirstNamed(found, name).Some? ==> exists k: nat :: FirstAt(found, k, name)
  {
    if found != [] {
      var rest := found[1..];
      FirstNamedIsFirst(rest, name);
      assert forall field :: field in found <==> field == found[0] || field in rest;
      if found[0].name == name {
        assert FirstAt(found, 0, name);
      } else {
        forall k: nat
          ensures FirstAt(found, k + 1, name) <==> FirstAt(rest, k, name)
        {
          assert forall j :: 0 <= j < k && k < |rest| ==> rest[j] == found[j + 1];
        }
        forall k: nat | FirstAt(found, k, name)
          ensures k > 0 && FirstAt(rest, k - 1, name)
        {
          assert k > 0;
          assert FirstAt(found, (k - 1) + 1, name);
        }
      }
    }
  }

  /** The report `mismatch` is the truth about the required field `want`. */
  ghost predicate Tells(mismatch: Mismatch, want: Field, found: seq<Field>) {
    && mismatch.name == want.name
    && match mismatch
       case Missing(_) => Absent(found, want.name)
       case Moved(_, expected, place) =>
         && expected == (want.offset, want.size) != place
         && exists k: nat :: FirstAt(found, k, want.name) && place == (found[k].offset, found[k].size)
  }

  /** The kernel's first field of that name is where, and as wide as, it is wanted. */
  ghost predicate InPlace(want: Field, found: seq<Field>) {
    exists k: nat :: FirstAt(found, k, want.name) && found[k] == want
  }

  lemma ComparisonTells(want: Field, found: seq<Field>)
    ensures Compare(want, found).None? <==> InPlace(want, found)
    ensures forall mismatch :: Compare(want, found) == Some(mismatch) <==> Tells(mismatch, want, found)
  {
    FirstNamedIsFirst(found, want.name);
    if FirstNamed(found, want.name).Some? {
      var k: nat :| FirstAt(found, k, want.name);
      assert found[k] in found;
    }
  }

  /** `reports` says, of the fields of `wanted` from the `k`th on that are not in place, each
      one's truth, in the order of `wanted` and once; `at` tells which field each report is on. */
  ghost predicate ReportsFrom(k: nat, reports: seq<Mismatch>, at: seq<nat>, wanted: seq<Field>, found: seq<Field>) {
    && |at| == |reports|
    && (forall i :: 0 <= i < |at| ==> k <= at[i] < |wanted| && Tells(reports[i], wanted[at[i]], found))
    && (forall i, j :: 0 <= i < j < |at| ==> at[i] < at[j])
    && (forall j :: k <= j < |wanted| ==> (j in at <==> !InPlace(wanted[j], found)))
  }

  ghost predicate Reports(reports: seq<Mismatch>, wanted: seq<Field>, found: seq<Field>) {
    exists at: seq<nat> :: ReportsFrom(0, reports, at, wanted, found)
  }

  lemma ReportOneMore(k: nat, mismatch: Mismatch, reports: seq<Mismatch>, at: seq<nat>, wanted: seq<Field>, found: seq<Field>)
    requires k < |wanted| && ReportsFrom(k + 1, reports, at, wanted, found)
    requires !InPlace(wanted[k], found) && Tells(mismatch, wanted[k], found)
    ensures ReportsFrom(k, [mismatch] + reports, [k] + at, wanted, found)
  {
    var at', reports' := [k] + at, [mismatch] + reports;
    assert forall j :: j in at' <==> j == k || j in at;
    forall i | 0 <= i < |at'|
      ensures k <= at'[i] < |wanted| && Tells(reports'[i], wanted[at'[i]], found)
    {
      if i > 0 {
        assert at'[i] == at[i - 1] && reports'[i] == reports[i - 1];
      }
    }
  }

  lemma ReportNoMore(k: nat, reports: seq<Mismatch>, at: seq<nat>, wanted: seq<Field>, found: seq<Field>)
    requires k < |wanted| && ReportsFrom(k + 1, reports, at, wanted, found) && InPlace(wanted[k], found)
    ensures ReportsFrom(k, reports, at, wanted, found)
  {
    assert k !in at;
  }

  lemma CompareAllFrom(k: nat, wanted: seq<Field>, found: seq<Field>)
    requires k < |wanted|
    ensures var rest, here := CompareAll(wanted[k + 1..], found), Compare(wanted[k], found);
            CompareAll(wanted[k..], found) == if here.Some? then [here.value] + rest else rest
  {
    assert wanted[k..][1..] == wanted[k + 1..];
  }

  lemma {:induction false} CompareAllReports(k: nat, wanted: seq<Field>, found: seq<Field>) returns (at: seq<nat>)
    requires k <= |wanted|
    ensures ReportsFrom(k, CompareAll(wanted[k..], found), at, wanted, found)
    decreases |wanted| - k
  {
    if k == |wanted| {
      at := [];
    } else {
      at := CompareAllReports(k + 1, wanted, found);
      CompareAllFrom(k, wanted, found);
      ComparisonTells(wanted[k], found);
      var rest := CompareAll(wanted[k + 1..], found);
      match Compare(wanted[k], found) {
        case Some(mismatch) =>
          ReportOneMore(k, mismatch, rest, at, wanted, found);
          at := [k] + at;
        case None =>
          ReportNoMore(k, rest, at, wanted, found);
      }
    }
  }

  /** For every format file: one report for each required field that is absent or elsewhere,
      each telling what is wrong, in required order; nothing else. */
  lemma CheckReportsExactly(text: string)
    ensures Reports(CheckLayout(text), REQUIRED_FIELDS, ParseFormat(text))
  {
    var at := CompareAllReports(0, REQUIRED_FIELDS, ParseFormat(text));
    assert REQUIRED_FIELDS[0..] == REQUIRED_FIELDS;
  }

  lemma CheckPassesIff(text: string)
    ensures CheckLayout(text) == [] <==>
            forall want :: want in REQUIRED_FIELDS ==> InPlace(want, ParseFormat(text))
  {
    var found, reports := ParseFormat(text), CheckLayout(text);
    CheckReportsExactly(text);
    var at: seq<nat> :| ReportsFrom(0, reports, at, REQUIRED_FIELDS, found);
    if reports == [] {
      forall want | want in REQUIRED_FIELDS
        ensures InPlace(want, found)
      {
        var k :| 0 <= k < |REQUIRED_FIELDS| && REQUIRED_FIELDS[k] == want;
        assert k !in at;
      }
    } else {
      assert at[0] in at;
      assert REQUIRED_FIELDS[at[0]] in REQUIRED_FIELDS;
    }
  }

  // ----- reading trace entries -----

  /** The bytes of a field of an entry. */
  function ReadBytes(entry: seq<bv8>, offset: nat, size: nat): seq<bv8>
    requires offset + size <= |entry|
  {
    entry[offset..offset + size]
  }

  /** On every entry long enough, the two places hold the same bytes. */
  ghost predicate AlwaysReadAlike(a: Field, b: Field) {
    forall entry: seq<bv8> :: a.offset + a.size <= |entry| && b.offset + b.size <= |entry| ==>
      ReadBytes(entry, a.offset, a.size) == ReadBytes(entry, b.offset, b.size)
  }

  /** An entry of zeros with one marked byte. */
  function Marked(length: nat, mark: nat): (entry: seq<bv8>)
    ensures |entry| == length
    ensures forall i :: 0 <= i < length ==> entry[i] == if i == mark then 1 else 0
  {
    seq(length, i => if i == mark then 1 else 0)
  }

  lemma ReadAlikeIffSamePlace(a: Field, b: Field)
    requires a.size > 0
    ensures AlwaysReadAlike(a, b) <==> a.offset == b.offset && a.size == b.size
  {
    if AlwaysReadAlike(a, b) {
      var entry := Marked(a.offset + a.size + b.offset + b.size, Min(a.offset, b.offset));
      var read, read' := ReadBytes(entry, a.offset, a.size), ReadBytes(entry, b.offset, b.size);
      assert |read| == a.size && |read'| == b.size;
      assert read[0] == entry[a.offset] && read'[0] == entry[b.offset];
    }
  }

  /** The check accepts a kernel exactly when, whatever bytes an entry holds, reading every
      required field where the probe reads it gives what reading it where the kernel declared
      it gives. */
  lemma CheckAcceptsExactlySafeLayouts(text: string)
    ensures CheckLayout(text) == [] <==>
            forall want :: want in REQUIRED_FIELDS ==>
              exists k: nat :: FirstAt(ParseFormat(text), k, want.name) && AlwaysReadAlike(want, ParseFormat(text)[k])
  {
    var found := ParseFormat(text);
    CheckPassesIff(text);
    forall want | want in REQUIRED_FIELDS
      ensures InPlace(want, found) <==>
              exists k: nat :: FirstAt(found, k, want.name) && AlwaysReadAlike(want, found[k])
    {
      assert want.size > 0;
      forall k: nat | FirstAt(found, k, want.name)
        ensures AlwaysReadAlike(want, found[k]) <==> found[k] == want
      {
        ReadAlikeIffSamePlace(want, found[k]);
      }
    }
  }

  // ----- the C layout of the structs -----

  /** The width of a primitive, which is also its alignment. */
  type Width = w: nat | w == 1 || w == 2 || w == 4 || w == 8 witness 1

  /** A member of a `repr(C)` struct: `count` primitives of `width` bytes. */
  datatype Member = Member(name: string, width: Width, count: nat) {
    function Size(): nat {
      match width case 1 => count case 2 => 2 * count case 4 => 4 * count case _ => 8 * count
    }
  }

  /** `n % width`, by cases. */
  function Over(n: nat, width: Width): nat {
    match width case 1 => 0 case 2 => n % 2 case 4 => n % 4 case _ => n % 8
  }

  function RoundUp(n: nat, width: Width): (r: nat)
    ensures n <= r < n + width && Over(r, width) == 0
  {
    if Over(n, width) == 0 then n else n + (width - Over(n, width))
  }

  /** Each member goes to the next offset its alignment allows. */
  function OffsetOf(members: seq<Member>, i: nat): nat
    requires i < |members|
    decreases i, 1
  {
    RoundUp(EndOf(members, i), members[i].width)
  }

  /** Where the first `i` members end. */
  function EndOf(members: seq<Member>, i: nat): nat
    requires i <= |members|
    decreases i, 0
  {
    if i == 0 then 0 else OffsetOf(members, i - 1) + members[i - 1].Size()
  }

  /** The widest alignment among the first `i` members. */
  function AlignmentOf(members: seq<Member>, i: nat): (align: Width)
    requires i <= |members|
    ensures forall j :: 0 <= j < i ==> members[j].width <= align
  {
    if i > 0 && members[i - 1].width > AlignmentOf(members, i - 1) then members[i - 1].width
    else if i > 0 then AlignmentOf(members, i - 1)
    else 1
  }

  function SizeOf(members: seq<Member>): nat
  {
    RoundUp(EndOf(members, |members|), AlignmentOf(members, |members|))
  }

  /** Members are aligned, and none overlaps the ones before it. */
  lemma {:induction false} MembersApart(members: seq<Member>, i: nat)
    requires i < |members|
    ensures Over(OffsetOf(members, i), members[i].width) == 0
    ensures forall j :: 0 <= j < i ==> OffsetOf(members, j) + members[j].Size() <= OffsetOf(members, i)
    ensures OffsetOf(members, i) + members[i].Size() <= EndOf(members, |members|) <= SizeOf(members)
  {
    if i > 0 {
      MembersApart(members, i - 1);
    }
    EndGrows(members, i + 1, |members|);
  }

  lemma {:induction false} EndGrows(members: seq<Member>, i: nat, j: nat)
    requires i <= j <= |members|
    ensures EndOf(members, i) <= EndOf(members, j)
  {
    if i < j {
      EndGrows(members, i, j - 1);
    }
  }

  const MARK_VICTIM_ARGS: seq<Member> := [
    Member("common_type", 2, 1),
    Member("common_flags", 1, 1),
    Member("common_preempt_count", 1, 1),
    Member("common_pid", 4, 1),
    Member("pid", 4, 1),
    Member("comm", 4, 1),
    Member("total_vm", 8, 1),
    Member("anon_rss", 8, 1),
    Member("file_rss", 8, 1),
    Member("shmem_rss", 8, 1),
    Member("uid", 4, 1),
    Member("pgtables", 8, 1),
    Member("oom_score_adj", 2, 1)
  ]

  const OOM_KILL_EVENT: seq<Member> := [
    Member("pid", 4, 1),
    Member("comm", 1, 16),
    Member("total_vm", 8, 1),
    Member("anon_rss", 8, 1),
    Member("file_rss", 8, 1),
    Member("shmem_rss", 8, 1),
    Member("uid", 4, 1),
    Member("pgtables", 8, 1),
    Member("oom_score_adj", 2, 1)
  ]

  const ARGS_OFFSETS: seq<nat> := [0, 2, 3, 4, 8, 12, 16, 24, 32, 40, 48, 56, 64]

  /** `offset` is the first place aligned to `width` from `end` on. */
  predicate NextAligned(offset: nat, end: nat, width: Width) {
    Over(offset, width) == 0 && end <= offset < end + width
  }

  lemma RoundUpIs(end: nat, width: Width, offset: nat)
    requires NextAligned(offset, end, width)
    ensures RoundUp(end, width) == offset
  {
    AlignedOnce(offset, RoundUp(end, width), width);
  }

  /** Two aligned places less than a width apart are one. */
  lemma AlignedOnce(a: nat, b: nat, width: Width)
    requires Over(a, width) == 0 == Over(b, width) && a < b + width && b < a + width
    ensures a == b
  {
    match width
    case 1 =>
    case 2 => SameMultiple(a / 2, b / 2, a, b, 2);
    case 4 => SameMultiple(a / 4, b / 4, a, b, 4);
    case _ => SameMultiple(a / 8, b / 8, a, b, 8);
  }

  lemma SameMultiple(q: nat, q': nat, a: nat, b: nat, width: Width)
    requires a == width * q && b == width * q' && a < b + width && b < a + width
    ensures a == b
  {
    match width
    case 1 =>
    case 2 =>
    case 4 =>
    case _ =>
  }

  predicate PlacedAt(members: seq<Member>, offsets: seq<nat>, i: nat)
    requires i < |members| == |offsets|
  {
    NextAligned(offsets[i], if i == 0 then 0 else offsets[i - 1] + members[i - 1].Size(), members[i].width)
  }

  predicate LaidOut(members: seq<Member>, offsets: seq<nat>) {
    |offsets| == |members| && forall i :: 0 <= i < |members| ==> PlacedAt(members, offsets, i)
  }

  lemma {:induction false} LaidOutOffsets(members: seq<Member>, offsets: seq<nat>, i: nat)
    requires LaidOut(members, offsets) && i < |members|
    ensures OffsetOf(members, i) == offsets[i]
  {
    if i > 0 {
      LaidOutOffsets(members, offsets, i - 1);
    }
    assert PlacedAt(members, offsets, i);
    RoundUpIs(EndOf(members, i), members[i].width, offsets[i]);
  }

  lemma LaidOutSize(members: seq<Member>, offsets: seq<nat>, align: Width, size: nat)
    requires LaidOut(members, offsets) && members != []
    requires align == AlignmentOf(members, |members|)
    requires NextAligned(size, offsets[|offsets| - 1] + members[|members| - 1].Size(), align)
    ensures SizeOf(members) == size
  {
    LaidOutOffsets(members, offsets, |members| - 1);
    RoundUpIs(EndOf(members, |members|), align, size);
  }

  lemma FirstArgsPlaced()
    ensures forall i :: 0 <= i < 7 ==> PlacedAt(MARK_VICTIM_ARGS, ARGS_OFFSETS, i)
  {
    var members := MARK_VICTIM_ARGS;
    assert PlacedAt(members, ARGS_OFFSETS, 0) && PlacedAt(members, ARGS_OFFSETS, 1);
    assert PlacedAt(members, ARGS_OFFSETS, 2) && PlacedAt(members, ARGS_OFFSETS, 3);
    assert PlacedAt(members, ARGS_OFFSETS, 4) && PlacedAt(members, ARGS_OFFSETS, 5);
    assert PlacedAt(members, ARGS_OFFSETS, 6);
  }

  lemma ArgsPlaced()
    ensures LaidOut(MARK_VICTIM_ARGS, ARGS_OFFSETS)
  {
    var members := MARK_VICTIM_ARGS;
    FirstArgsPlaced();
    assert PlacedAt(members, ARGS_OFFSETS, 7) && PlacedAt(members, ARGS_OFFSETS, 8);
    assert PlacedAt(members, ARGS_OFFSETS, 9) && PlacedAt(members, ARGS_OFFSETS, 10);
    assert PlacedAt(members, ARGS_OFFSETS, 11) && PlacedAt(members, ARGS_OFFSETS, 12);
  }

  /** The probe's struct puts its members where the comments and the required fields say, and
      spans 72 bytes. */
  lemma ArgsLayout()
    ensures |MARK_VICTIM_ARGS| == |ARGS_OFFSETS|
    ensures forall i :: 0 <= i < |ARGS_OFFSETS| ==> OffsetOf(MARK_VICTIM_ARGS, i) == ARGS_OFFSETS[i]
    ensures SizeOf(MARK_VICTIM_ARGS) == 72
  {
    var members := MARK_VICTIM_ARGS;
    ArgsPlaced();
    AlignmentIsEight(members, 6);
    LaidOutSize(members, ARGS_OFFSETS, 8, 72);
    forall i | 0 <= i < |ARGS_OFFSETS|
      ensures OffsetOf(members, i) == ARGS_OFFSETS[i]
    {
      LaidOutOffsets(members, ARGS_OFFSETS, i);
    }
  }

  lemma AlignmentIsEight(members: seq<Member>, widest: nat)
    requires widest < |members| && members[widest].width == 8
    requires forall i :: 0 <= i < |members| ==> members[i].width <= 8
    ensures AlignmentOf(members, |members|) == 8
  {
    AlignmentAtMost(members, |members|, 8);
  }

  lemma {:induction false} AlignmentAtMost(members: seq<Member>, i: nat, bound: Width)
    requires i <= |members|
    requires forall j :: 0 <= j < |members| ==> members[j].width <= bound
    ensures AlignmentOf(members, i) <= bound
  {
    if i > 0 {
      AlignmentAtMost(members, i - 1, bound);
    }
  }

  /** The ring records are as long as the source takes them to be. */
  lemma EventSize()
    ensures SizeOf(OOM_KILL_EVENT) == EventSource.EVENT_SIZE
  {
    var members, offsets := OOM_KILL_EVENT, [0, 4, 24, 32, 40, 48, 56, 64, 72];
    assert PlacedAt(members, offsets, 0) && PlacedAt(members, offsets, 1) && PlacedAt(members, offsets, 2);
    assert PlacedAt(members, offsets, 3) && PlacedAt(members, offsets, 4) && PlacedAt(members, offsets, 5);
    assert PlacedAt(members, offsets, 6) && PlacedAt(members, offsets, 7) && PlacedAt(members, offsets, 8);
    assert LaidOut(members, offsets);
    AlignmentIsEight(members, 2);
    LaidOutSize(members, offsets, 8, 80);
  }

  // ----- decoding an entry -----

  /** The fields of the tracepoint header, which the probe reads past. */
  const COMMON_FIELDS: nat := 4

  /** The bytes of member `i` in a struct laid over the entry. */
  function MemberBytes(entry: seq<bv8>, members: seq<Member>, i: nat): seq<bv8>
    requires i < |members| && SizeOf(members) <= |entry|
  {
    MembersApart(members, i);
    ReadBytes(entry, OffsetOf(members, i), members[i].Size())
  }

  function LittleEndian(bytes: seq<bv8>): nat {
    if bytes == [] then 0 else bytes[0] as nat + 256 * LittleEndian(bytes[1..])
  }

  function Signed16(n: nat): int {
    if n < 0x8000 then n else n - 0x1_0000
  }

  function Arg(entry: seq<bv8>, i: nat): nat
    requires i < |MARK_VICTIM_ARGS| && SizeOf(MARK_VICTIM_ARGS) <= |entry|
  {
    LittleEndian(MemberBytes(entry, MARK_VICTIM_ARGS, i))
  }

  function Args(entry: seq<bv8>): (args: seq<nat>)
    requires SizeOf(MARK_VICTIM_ARGS) <= |entry|
    ensures |args| == |MARK_VICTIM_ARGS| && forall i :: 0 <= i < |args| ==> args[i] == Arg(entry, i)
  {
    seq(|MARK_VICTIM_ARGS|, i requires 0 <= i < |MARK_VICTIM_ARGS| => Arg(entry, i))
  }

  /** The record the probe makes of its arguments; the command name lives elsewhere. */
  function EventFrom(args: seq<nat>, comm: seq<bv8>): OomKillEvent
    requires |args| == 13
  {
    OomKillEvent(args[4], comm, args[6], args[7], args[8], args[9], args[10], args[11], Signed16(args[12]))
  }

  /** What the kernel says a field of the entry holds. */
  ghost predicate DeclaredValue(found: seq<Field>, entry: seq<bv8>, name: string, value: nat) {
    exists k: nat ::
      && FirstAt(found, k, name)
      && found[k].offset + found[k].size <= |entry|
      && value == LittleEndian(ReadBytes(entry, found[k].offset, found[k].size))
  }

  lemma ArgBytes(entry: seq<bv8>, i: nat)
    requires SizeOf(MARK_VICTIM_ARGS) <= |entry| && i < |REQUIRED_FIELDS|
    ensures var want := REQUIRED_FIELDS[i];
            && want.offset + want.size <= |entry|
            && Arg(entry, COMMON_FIELDS + i) == LittleEndian(ReadBytes(entry, want.offset, want.size))
  {
    ArgsLayout();
    ArgPlace(i);
    MembersApart(MARK_VICTIM_ARGS, COMMON_FIELDS + i);
  }

  /** The probe's struct and the required fields name the same places. */
  lemma ArgPlace(i: nat)
    requires i < |REQUIRED_FIELDS|
    ensures MARK_VICTIM_ARGS[COMMON_FIELDS + i].name == REQUIRED_FIELDS[i].name
    ensures MARK_VICTIM_ARGS[COMMON_FIELDS + i].Size() == REQUIRED_FIELDS[i].size
    ensures ARGS_OFFSETS[COMMON_FIELDS + i] == REQUIRED_FIELDS[i].offset
  {
  }

  lemma ArgIsDeclared(text: string, entry: seq<bv8>, i: nat)
    requires CheckLayout(text) == [] && SizeOf(MARK_VICTIM_ARGS) <= |entry| && i < |REQUIRED_FIELDS|
    ensures DeclaredValue(ParseFormat(text), entry, REQUIRED_FIELDS[i].name, Arg(entry, COMMON_FIELDS + i))
  {
    var want, found := REQUIRED_FIELDS[i], ParseFormat(text);
    CheckPassesIff(text);
    assert want in REQUIRED_FIELDS;
    ArgBytes(entry, i);
    var k: nat :| FirstAt(found, k, want.name) && found[k] == want;
  }

  /** The figure the `i`th required field feeds; `comm`, the second, only says where the name is. */
  function Figure(event: OomKillEvent, i: nat): int {
    match i
    case 0 => event.pid
    case 2 => event.totalVm
    case 3 => event.anonRss
    case 4 => event.fileRss
    case 5 => event.shmemRss
    case 6 => event.uid
    case 7 => event.pgtables
    case _ => event.oomScoreAdj
  }

  const COMM: nat := 1
  const OOM_SCORE_ADJ: nat := 8

  function FigureOf(value: nat, i: nat): int {
    if i == OOM_SCORE_ADJ then Signed16(value) else value
  }

  lemma FigureIsArg(args: seq<nat>, comm: seq<bv8>, i: nat)
    requires |args| == 13 && i < 9 && i != COMM
    ensures Figure(EventFrom(args, comm), i) == FigureOf(args[COMMON_FIELDS + i], i)
  {
  }

  lemma DeclaredFigure(found: seq<Field>, entry: seq<bv8>, name: string, value: nat, i: nat, figure: int)
    requires DeclaredValue(found, entry, name, value) && figure == FigureOf(value, i)
    ensures exists v: nat :: DeclaredValue(found, entry, name, v) && figure == FigureOf(v, i)
  {
  }

  /** A kernel that passes the check is decoded rightly: on every entry, each figure of the
      event is the value of the field the kernel declares under the required name. */
  lemma AcceptedEntriesDecodeRight(text: string, entry: seq<bv8>, comm: seq<bv8>, i: nat)
    requires CheckLayout(text) == [] && SizeOf(MARK_VICTIM_ARGS) <= |entry|
    requires i < |REQUIRED_FIELDS| && i != COMM
    ensures exists value: nat ::
              && DeclaredValue(ParseFormat(text), entry, REQUIRED_FIELDS[i].name, value)
              && Figure(EventFrom(Args(entry), comm), i) == FigureOf(value, i)
  {
    ArgIsDeclared(text, entry, i);
    FigureIsArg(Args(entry), comm, i);
    DeclaredFigure(ParseFormat(text), entry, REQUIRED_FIELDS[i].name, Arg(entry, COMMON_FIELDS + i), i,
                   Figure(EventFrom(Args(entry), comm), i));
  }

  // ----- what the kernel writes is what is read -----

  /** 256 to the power `i`. */
  function Place(i: nat): (n: nat)
    ensures n > 0
  {
    if i == 0 then 1 else 256 * Place(i - 1)
  }

  /** The bytes are those of `value`, lowest first. */
  predicate Writes(bytes: seq<bv8>, value: nat) {
    value < Place(|bytes|) && forall i :: 0 <= i < |bytes| ==> bytes[i] as nat == value / Place(i) % 256
  }

  lemma AtLeastOnce(d: nat, k: nat)
    requires k > 0
    ensures d * k >= d
  {
  }

  lemma QuotientIs(n: nat, d: nat, q: nat, r: nat)
    requires d > 0 && n == q * d + r && r < d
    ensures n / d == q
  {
    var q' := n / d;
    if q < q' {
      AtLeastOnce(d, q' - q);
    } else if q' < q {
      AtLeastOnce(d, q - q');
    }
  }

  /** Dividing by 256 moves every byte one place down. */
  lemma OnePlaceDown(value: nat, i: nat)
    ensures value / Place(i + 1) == value / 256 / Place(i)
  {
    var d := Place(i);
    var v := value / 256;
    var q, r := v / d, v % d;
    assert value == 256 * v + value % 256;
    assert v == q * d + r;
    assert 256 * v == q * (256 * d) + 256 * r;
    QuotientIs(value, 256 * d, q, 256 * r + value % 256);
  }

  /** Bytes written lowest first are read as the number written. */
  lemma {:induction false} WrittenIsRead(bytes: seq<bv8>, value: nat)
    requires Writes(bytes, value)
    ensures LittleEndian(bytes) == value
  {
    if bytes != [] {
      var rest := bytes[1..];
      assert Place(0) == 1 && bytes[0] as nat == value % 256;
      forall i | 0 <= i < |rest|
        ensures rest[i] as nat == value / 256 / Place(i) % 256
      {
        OnePlaceDown(value, i);
        assert rest[i] == bytes[i + 1];
      }
      WrittenIsRead(rest, value / 256);
    }
  }

  /** Where the kernel declares `name`, the entry holds the bytes of `value`. */
  ghost predicate KernelWrote(found: seq<Field>, entry: seq<bv8>, name: string, value: nat) {
    exists k: nat ::
      && FirstAt(found, k, name)
      && found[k].offset + found[k].size <= |entry|
      && Writes(entry[found[k].offset..found[k].offset + found[k].size], value)
  }

  /** The two's complement of `a` in sixteen bits. */
  function TwosComplement16(a: int): nat
    requires -32768 <= a < 32768
  {
    if a >= 0 then a else 65536 + a
  }

  lemma FirstIsOne(found: seq<Field>, j: nat, k: nat, name: string)
    requires FirstAt(found, j, name) && FirstAt(found, k, name)
    ensures j == k
  {
  }

  lemma WrittenIsDeclared(found: seq<Field>, entry: seq<bv8>, name: string, value: nat, declared: nat)
    requires KernelWrote(found, entry, name, value) && DeclaredValue(found, entry, name, declared)
    ensures declared == value
  {
    var j: nat :| FirstAt(found, j, name) && found[j].offset + found[j].size <= |entry|
                  && Writes(entry[found[j].offset..found[j].offset + found[j].size], value);
    var k: nat :| FirstAt(found, k, name) && found[k].offset + found[k].size <= |entry|
                  && declared == LittleEndian(ReadBytes(entry, found[k].offset, found[k].size));
    FirstIsOne(found, j, k, name);
    WrittenIsRead(ReadBytes(entry, found[k].offset, found[k].size), value);
  }

  /** On a kernel that passes the check, whatever number it wrote into a required field is the
      event's figure, byte order and all. */
  lemma FiguresAreWhatTheKernelWrote(text: string, entry: seq<bv8>, comm: seq<bv8>, i: nat, value: nat)
    requires CheckLayout(text) == [] && SizeOf(MARK_VICTIM_ARGS) <= |entry|
    requires i < |REQUIRED_FIELDS| && i != COMM && i != OOM_SCORE_ADJ
    requires KernelWrote(ParseFormat(text), entry, REQUIRED_FIELDS[i].name, value)
    ensures Figure(EventFrom(Args(entry), comm), i) == value
  {
    ArgIsDeclared(text, entry, i);
    FigureIsArg(Args(entry), comm, i);
    WrittenIsDeclared(ParseFormat(text), entry, REQUIRED_FIELDS[i].name, value, Arg(entry, COMMON_FIELDS + i));
  }

  /** So is the signed adjustment, written in two's complement. */
  lemma AdjustmentIsWhatTheKernelWrote(text: string, entry: seq<bv8>, comm: seq<bv8>, a: int)
    requires CheckLayout(text) == [] && SizeOf(MARK_VICTIM_ARGS) <= |entry| && -32768 <= a < 32768
    requires KernelWrote(ParseFormat(text), entry, REQUIRED_FIELDS[OOM_SCORE_ADJ].name, TwosComplement16(a))
    ensures EventFrom(Args(entry), comm).oomScoreAdj == a
  {
    var i := OOM_SCORE_ADJ;
    ArgIsDeclared(text, entry, i);
    FigureIsArg(Args(entry), comm, i);
    WrittenIsDeclared(ParseFormat(text), entry, REQUIRED_FIELDS[i].name, TwosComplement16(a), Arg(entry, COMMON_FIELDS + i));
  }
}
