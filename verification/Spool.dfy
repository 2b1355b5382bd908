/**
 The agent's bounded spool: a queue of telemetry batches and task results that could not be uploaded,
 trimmed to a count and a byte limit, oldest telemetry first and task results last.
 */
module Spool {
  import opened Collections

  datatype Kind = Events | TaskResult | OtherKind

  /** `size` is the encoded length with its newline; `hasResult` is false for a task result without a body. */
  datatype Record = Record(kind: Kind, createdAt: string, hasResult: bool, payload: string, size: nat)

  /** A limit of zero or less is no limit. */
  datatype Limits = Limits(maxBytes: int, maxRecords: int)

  // ---------- trimming ----------

  predicate IsTask(r: Record) {
    r.kind.TaskResult?
  }

  function Size(s: seq<Record>): nat {
    if s == [] then 0 else Size(s[..|s| - 1]) + s[|s| - 1].size
  }

  lemma SizeAppend(s: seq<Record>, r: Record)
    ensures Size(s + [r]) == Size(s) + r.size
  {
    assert (s + [r])[..|s|] == s;
  }

  predicate Fits(s: seq<Record>, limits: Limits) {
    && (limits.maxRecords > 0 ==> |s| <= limits.maxRecords)
    && (limits.maxBytes > 0 ==> Size(s) <= limits.maxBytes)
  }

  /** The oldest record that is not a task result or, if there is none, the oldest record. */
  function DropIndex(s: seq<Record>): (i: nat)
    requires s != []
    ensures i < |s|
  {
    if !IsTask(s[0]) then 0
    else if |s| == 1 then 0
    else
      var i := DropIndex(s[1..]);
      if IsTask(s[1..][i]) then 0 else i + 1
  }

  function Without(s: seq<Record>, i: nat): seq<Record>
    requires i < |s|
  {
    s[..i] + s[i + 1..]
  }

  function EvictOnce(s: seq<Record>): (r: seq<Record>)
    requires s != []
    ensures |r| == |s| - 1
  {
    Without(s, DropIndex(s))
  }

  /** The k-th step of the eviction order. */
  function Evict(s: seq<Record>, k: nat): (r: seq<Record>)
    requires k <= |s|
    ensures |r| == |s| - k
  {
    if k == 0 then s else Evict(EvictOnce(s), k - 1)
  }

  /** Evict one record at a time until both limits are met. */
  function Trim(s: seq<Record>, limits: Limits): (r: seq<Record>)
    ensures |r| <= |s|
    decreases |s|
  {
    if s == [] || Fits(s, limits) then s else Trim(EvictOnce(s), limits)
  }

  lemma {:induction false} TrimIsStep(s: seq<Record>, limits: Limits)
    ensures Trim(s, limits) == Evict(s, |s| - |Trim(s, limits)|) && Fits(Trim(s, limits), limits)
    decreases |s|
  {
    if s != [] && !Fits(s, limits) {
      var t := EvictOnce(s);
      var k := |t| - |Trim(t, limits)|;
      TrimIsStep(t, limits);
      assert Trim(s, limits) == Trim(t, limits);
      assert Evict(s, k + 1) == Evict(t, k);
    }
  }

  /** `Trim` stops at the least step of the eviction order that meets both limits. */
  lemma {:induction false} TrimIsLeastStep(s: seq<Record>, limits: Limits, k: nat)
    requires k <= |s|
    ensures Trim(s, limits) == Evict(s, |s| - |Trim(s, limits)|) && Fits(Trim(s, limits), limits)
    ensures Fits(Evict(s, k), limits) ==> |s| - |Trim(s, limits)| <= k
    decreases |s|
  {
    TrimIsStep(s, limits);
    if k > 0 && !Fits(s, limits) {
      var t := EvictOnce(s);
      TrimIsLeastStep(t, limits, k - 1);
      assert Trim(s, limits) == Trim(t, limits);
      assert Evict(s, k) == Evict(t, k - 1);
    }
  }

  function Telemetry(s: seq<Record>): seq<Record> {
    if s == [] then [] else (if IsTask(s[0]) then [] else [s[0]]) + Telemetry(s[1..])
  }

  function Tasks(s: seq<Record>): seq<Record> {
    if s == [] then [] else (if IsTask(s[0]) then [s[0]] else []) + Tasks(s[1..])
  }

  ghost predicate Subsequence(a: seq<Record>, b: seq<Record>) {
    if a == [] then true
    else if b == [] then false
    else if a[0] == b[0] && Subsequence(a[1..], b[1..]) then true
    else Subsequence(a, b[1..])
  }

  lemma ClassesCons(r: Record, s: seq<Record>)
    ensures Telemetry([r] + s) == (if IsTask(r) then [] else [r]) + Telemetry(s)
    ensures Tasks([r] + s) == (if IsTask(r) then [r] else []) + Tasks(s)
  {
    assert ([r] + s)[1..] == s;
  }

  lemma {:induction false} TelemetryEmptyIff(s: seq<Record>)
    requires s != []
    ensures IsTask(s[DropIndex(s)]) <==> Telemetry(s) == []
  {
    if |s| > 1 {
      TelemetryEmptyIff(s[1..]);
    }
  }

  lemma WithoutCons(s: seq<Record>, i: nat)
    requires i + 1 < |s|
    ensures Without(s, i + 1) == [s[0]] + Without(s[1..], i)
  {
  }

  lemma EvictOnceCases(s: seq<Record>)
    requires s != []
    ensures DropIndex(s) == 0 ==> EvictOnce(s) == s[1..]
    ensures DropIndex(s) > 0 ==> |s| > 1 && IsTask(s[0]) && EvictOnce(s) == [s[0]] + EvictOnce(s[1..])
  {
    if DropIndex(s) > 0 {
      WithoutCons(s, DropIndex(s[1..]));
    }
  }

  /** One eviction removes the head of the telemetry or, when there is none, the head of the task results. */
  lemma {:induction false} EvictOnceClasses(s: seq<Record>)
    requires s != []
    ensures Telemetry(s) != [] ==> Telemetry(EvictOnce(s)) == Telemetry(s)[1..] && Tasks(EvictOnce(s)) == Tasks(s)
    ensures Telemetry(s) == [] ==>
        Telemetry(EvictOnce(s)) == [] && Tasks(s) != [] && Tasks(EvictOnce(s)) == Tasks(s)[1..]
  {
    TelemetryEmptyIff(s);
    EvictOnceCases(s);
    var rest := s[1..];
    assert s == [s[0]] + rest;
    ClassesCons(s[0], rest);
    if DropIndex(s) > 0 {
      TelemetryEmptyIff(rest);
      EvictOnceClasses(rest);
      ClassesCons(s[0], EvictOnce(rest));
    }
  }

  lemma {:induction false} WithoutIsSubsequence(s: seq<Record>, i: nat)
    requires i < |s|
    ensures Subsequence(Without(s, i), s)
  {
    if i == 0 {
      SubsequenceSelf(s[1..]);
      assert Without(s, 0) == s[1..];
    } else {
      WithoutIsSubsequence(s[1..], i - 1);
      assert Without(s, i) == [s[0]] + Without(s[1..], i - 1);
    }
  }

  lemma {:induction false} SubsequenceSelf(s: seq<Record>)
    ensures Subsequence(s, s)
  {
    if s != [] {
      SubsequenceSelf(s[1..]);
    }
  }

  lemma {:induction false} SubsequenceTrans(a: seq<Record>, b: seq<Record>, c: seq<Record>)
    requires Subsequence(a, b) && Subsequence(b, c)
    ensures Subsequence(a, c)
    decreases |c|
  {
    if a != [] {
      if b[0] == c[0] && Subsequence(b[1..], c[1..]) {
        if a[0] == b[0] && Subsequence(a[1..], b[1..]) {
          SubsequenceTrans(a[1..], b[1..], c[1..]);
        } else {
          SubsequenceTrans(a, b[1..], c[1..]);
        }
      } else {
        SubsequenceTrans(a, b, c[1..]);
      }
    }
  }

  lemma {:induction false} SubsequenceAppend(a: seq<Record>, b: seq<Record>, r: Record)
    requires Subsequence(a, b)
    ensures Subsequence(a + [r], b + [r])
  {
    if b != [] {
      assert (b + [r])[1..] == b[1..] + [r];
      if a != [] && a[0] == b[0] && Subsequence(a[1..], b[1..]) {
        assert (a + [r])[1..] == a[1..] + [r];
        SubsequenceAppend(a[1..], b[1..], r);
      } else if a != [] {
        SubsequenceAppend(a, b[1..], r);
      } else {
        SubsequenceAppend([], b[1..], r);
      }
    } else {
      assert (a + [r])[1..] == [] && (b + [r])[1..] == [];
    }
  }

  ghost predicate SuffixOf<T>(a: seq<T>, b: seq<T>) {
    |a| <= |b| && a == b[|b| - |a|..]
  }

  lemma SuffixTail<T>(a: seq<T>, b: seq<T>)
    requires b != [] && SuffixOf(a, b[1..])
    ensures SuffixOf(a, b) && a != b
  {
  }

  lemma {:induction false} TrimIsSubsequence(s: seq<Record>, limits: Limits)
    ensures Subsequence(Trim(s, limits), s)
    decreases |s|
  {
    SubsequenceSelf(s);
    if s != [] && !Fits(s, limits) {
      TrimIsSubsequence(EvictOnce(s), limits);
      WithoutIsSubsequence(s, DropIndex(s));
      SubsequenceTrans(Trim(s, limits), EvictOnce(s), s);
    }
  }

  /** What survives a trim: of each class the newest, and no telemetry once a task result has been dropped. */
  lemma {:induction false} TrimKeepsNewest(s: seq<Record>, limits: Limits)
    ensures var r := Trim(s, limits);
      && SuffixOf(Telemetry(r), Telemetry(s)) && SuffixOf(Tasks(r), Tasks(s))
      && (Tasks(r) != Tasks(s) ==> Telemetry(r) == [])
    decreases |s|
  {
    if s != [] && !Fits(s, limits) {
      var t, r := EvictOnce(s), Trim(s, limits);
      EvictOnceClasses(s);
      TrimKeepsNewest(t, limits);
      if Telemetry(s) != [] {
        SuffixTail(Telemetry(r), Telemetry(s));
      } else {
        SuffixTail(Tasks(r), Tasks(s));
      }
    }
  }

  // ---------- the loops ----------

  method DropCandidateIndex(s: seq<Record>) returns (idx: nat)
    requires s != []
    ensures idx == DropIndex(s)
  {
    for i := 0 to |s|
      invariant forall j | 0 <= j < i :: IsTask(s[j])
    {
      if !IsTask(s[i]) {
        FirstTelemetry(s, i);
        return i;
      }
    }
    FirstTelemetry(s, |s|);
    return 0;
  }

  lemma {:induction false} FirstTelemetry(s: seq<Record>, i: nat)
    requires s != [] && i <= |s| && forall j | 0 <= j < i :: IsTask(s[j])
    requires i < |s| ==> !IsTask(s[i])
    ensures DropIndex(s) == if i < |s| then i else 0
  {
    if i > 0 && |s| > 1 {
      FirstTelemetry(s[1..], i - 1);
    }
  }

  method RecordsSize(s: seq<Record>) returns (size: nat)
    ensures size == Size(s)
  {
    size := 0;
    for i := 0 to |s|
      invariant size == Size(s[..i])
    {
      assert s[..i + 1][..i] == s[..i];
      size := size + s[i].size;
    }
    assert s[..|s|] == s;
  }

  predicate HasStamp(s: seq<Record>, stamp: string) {
    exists r | r in s :: r.createdAt == stamp
  }

  method FindStamp(s: seq<Record>, stamp: string) returns (found: bool)
    ensures found <==> HasStamp(s, stamp)
  {
    for i := 0 to |s|
      invariant forall j | 0 <= j < i :: s[j].createdAt != stamp
    {
      if s[i].createdAt == stamp {
        assert s[i] in s;
        return true;
      }
    }
    return false;
  }

  /** The count loop, then the byte loop, as one function of the input. */
  method TrimRecords(input: seq<Record>, newCreatedAt: string, limits: Limits)
    returns (records: seq<Record>, dropped: nat, retainedNew: bool)
    ensures records == Trim(input, limits) && dropped == |input| - |records|
    ensures newCreatedAt != "" ==> (retainedNew <==> HasStamp(records, newCreatedAt))
  {
    records, dropped, retainedNew := input, 0, newCreatedAt == "";
    while limits.maxRecords > 0 && |records| > limits.maxRecords
      invariant dropped == |input| - |records| && Trim(records, limits) == Trim(input, limits)
      invariant newCreatedAt != "" ==> !retainedNew
      decreases |records|
    {
      var idx := DropCandidateIndex(records);
      if records[idx].createdAt == newCreatedAt {
        retainedNew := false;
      }
      records := Without(records, idx);
      dropped := dropped + 1;
    }
    var size := RecordsSize(records);
    while limits.maxBytes > 0 && size > limits.maxBytes && |records| > 0
      invariant dropped == |input| - |records| && Trim(records, limits) == Trim(input, limits)
      invariant limits.maxRecords > 0 ==> |records| <= limits.maxRecords
      invariant size == Size(records)
      invariant newCreatedAt != "" ==> !retainedNew
      decreases |records|
    {
      var idx := DropCandidateIndex(records);
      if records[idx].createdAt == newCreatedAt {
        retainedNew := false;
      }
      records := Without(records, idx);
      dropped := dropped + 1;
      size := RecordsSize(records);
    }
    if newCreatedAt != "" {
      var found := FindStamp(records, newCreatedAt);
      retainedNew := retainedNew || found;
    }
  }

  // ---------- the spool over time ----------

  datatype State = State(queue: seq<Record>, accepted: nat, dropped: nat, blocked: nat, uploaded: nat, replayed: nat,
      retried: nat, lastUpload: string)

  const EMPTY := State([], 0, 0, 0, 0, 0, 0, "")

  /** A record the two append functions can create. */
  predicate WellFormed(r: Record) {
    r.kind.Events? || (r.kind.TaskResult? && r.hasResult)
  }

  function AppendStep(st: State, r: Record, limits: Limits): State {
    var q := Trim(st.queue + [r], limits);
    st.(queue := q, accepted := st.accepted + 1, dropped := st.dropped + |st.queue| + 1 - |q|,
        blocked := st.blocked + if HasStamp(q, r.createdAt) then 0 else 1)
  }

  /** The server's answer to the i-th upload of a flush; what it never answered counts as refused. */
  predicate Acknowledged(acks: seq<bool>, i: nat) {
    i < |acks| && acks[i]
  }

  /** The records a flush leaves: the well-formed ones whose upload failed. Others are skipped for good. */
  function Unsent(q: seq<Record>, acks: seq<bool>): seq<Record> {
    if q == [] then []
    else
      var n := |q| - 1;
      Unsent(q[..n], acks) + if WellFormed(q[n]) && !Acknowledged(acks, n) then [q[n]] else []
  }

  function Sent(q: seq<Record>, acks: seq<bool>): seq<Record> {
    if q == [] then []
    else
      var n := |q| - 1;
      Sent(q[..n], acks) + if WellFormed(q[n]) && Acknowledged(acks, n) then [q[n]] else []
  }

  /** `at` is the time of the flush. */
  function FlushStep(st: State, acks: seq<bool>, at: string): State {
    var left, sent := Unsent(st.queue, acks), |Sent(st.queue, acks)|;
    st.(queue := left, uploaded := st.uploaded + sent, replayed := st.replayed + sent, retried := st.retried + |left|,
        lastUpload := if sent > 0 then at else st.lastUpload)
  }

  datatype Op = Append(record: Record) | Flush(acks: seq<bool>, at: string)

  function Step(st: State, op: Op, limits: Limits): State {
    match op
    case Append(r) => AppendStep(st, r, limits)
    case Flush(acks, at) => FlushStep(st, acks, at)
  }

  function Run(ops: seq<Op>, limits: Limits): State {
    if ops == [] then EMPTY else Step(Run(ops[..|ops| - 1], limits), ops[|ops| - 1], limits)
  }

  /** Every record ever appended, in order. */
  function Appended(ops: seq<Op>): seq<Record> {
    if ops == [] then []
    else Appended(ops[..|ops| - 1]) + if ops[|ops| - 1].Append? then [ops[|ops| - 1].record] else []
  }

  /** Every record whose upload the server acknowledged. */
  function Uploaded(ops: seq<Op>, limits: Limits): seq<Record> {
    if ops == [] then []
    else
      var n := |ops| - 1;
      Uploaded(ops[..n], limits) + if ops[n].Flush? then Sent(Run(ops[..n], limits).queue, ops[n].acks) else []
  }

  /** Every record a trim threw away. */
  ghost function Evicted(ops: seq<Op>, limits: Limits): multiset<Record> {
    if ops == [] then multiset{}
    else
      var n := |ops| - 1;
      var q := Run(ops[..n], limits).queue;
      Evicted(ops[..n], limits)
      + if ops[n].Append? then multiset(q + [ops[n].record]) - multiset(Trim(q + [ops[n].record], limits))
          else multiset{}
  }

  ghost predicate AllWellFormed(ops: seq<Op>) {
    forall op | op in ops && op.Append? :: WellFormed(op.record)
  }

  lemma {:induction false} TrimPicks(s: seq<Record>, limits: Limits)
    ensures multiset(Trim(s, limits)) <= multiset(s)
    decreases |s|
  {
    if s != [] && !Fits(s, limits) {
      var i := DropIndex(s);
      assert s == s[..i] + [s[i]] + s[i + 1..];
      TrimPicks(EvictOnce(s), limits);
    }
  }

  ghost predicate AllOk(q: seq<Record>) {
    forall r | r in q :: WellFormed(r)
  }

  /** What a flush neither uploads nor keeps: records that no append function creates. */
  function Malformed(q: seq<Record>): seq<Record> {
    if q == [] then [] else Malformed(q[..|q| - 1]) + if WellFormed(q[|q| - 1]) then [] else [q[|q| - 1]]
  }

  lemma {:induction false} MalformedIffNotOk(q: seq<Record>)
    ensures Malformed(q) == [] <==> AllOk(q)
  {
    if q != [] {
      var n := |q| - 1;
      assert q == q[..n] + [q[n]];
      MalformedIffNotOk(q[..n]);
    }
  }

  /** A flush accounts for every record but the malformed ones, which it drops without counting them. */
  lemma {:induction false} FlushPartitions(q: seq<Record>, acks: seq<bool>)
    ensures multiset(q) == multiset(Unsent(q, acks)) + multiset(Sent(q, acks)) + multiset(Malformed(q))
  {
    if q != [] {
      var n := |q| - 1;
      var u, s, m := Unsent(q[..n], acks), Sent(q[..n], acks), Malformed(q[..n]);
      FlushPartitions(q[..n], acks);
      SplitLast(q);
      PartitionSnoc(q[..n], u, s, m, q[n]);
    }
  }

  lemma PartitionSnoc(q: seq<Record>, u: seq<Record>, s: seq<Record>, m: seq<Record>, r: Record)
    requires multiset(q) == multiset(u) + multiset(s) + multiset(m)
    ensures multiset(q + [r]) == multiset(u + [r]) + multiset(s) + multiset(m)
    ensures multiset(q + [r]) == multiset(u) + multiset(s + [r]) + multiset(m)
    ensures multiset(q + [r]) == multiset(u) + multiset(s) + multiset(m + [r])
    ensures u + [] == u && s + [] == s && m + [] == m
  {
  }

  lemma {:induction false} FlushKeepsOrder(q: seq<Record>, acks: seq<bool>)
    ensures Subsequence(Unsent(q, acks), q) && |Unsent(q, acks)| <= |q| && Size(Unsent(q, acks)) <= Size(q)
  {
    if q != [] {
      var n := |q| - 1;
      var left := Unsent(q[..n], acks);
      FlushKeepsOrder(q[..n], acks);
      assert q == q[..n] + [q[n]];
      if WellFormed(q[n]) && !Acknowledged(acks, n) {
        SubsequenceAppend(left, q[..n], q[n]);
        SizeAppend(left, q[n]);
      } else {
        assert Unsent(q, acks) == left;
        SubsequenceExtend(left, q[..n], q[n]);
      }
    }
  }

  lemma {:induction false} SubsequenceExtend(a: seq<Record>, b: seq<Record>, r: Record)
    requires Subsequence(a, b)
    ensures Subsequence(a, b + [r])
  {
    if b != [] {
      assert (b + [r])[1..] == b[1..] + [r];
      if a != [] && a[0] == b[0] && Subsequence(a[1..], b[1..]) {
        SubsequenceExtend(a[1..], b[1..], r);
      } else if a != [] {
        SubsequenceExtend(a, b[1..], r);
      }
    }
  }

  /** The books balance: nothing is lost or duplicated, and the counters say where everything went. */
  ghost predicate Balanced(st: State, appended: seq<Record>, uploaded: seq<Record>, evicted: multiset<Record>) {
    && multiset(appended) == multiset(st.queue) + multiset(uploaded) + evicted
    && st.accepted == |appended| && st.uploaded == |uploaded| && st.dropped == |evicted|
    && st.replayed == st.uploaded && st.blocked <= st.dropped
  }

  lemma AppendBalances(st: State, appended: seq<Record>, uploaded: seq<Record>, evicted: multiset<Record>, r: Record,
      limits: Limits)
    requires Balanced(st, appended, uploaded, evicted)
    ensures var longer := st.queue + [r];
      Balanced(AppendStep(st, r, limits), appended + [r], uploaded,
          evicted + (multiset(longer) - multiset(Trim(longer, limits))))
  {
    var longer := st.queue + [r];
    var q := Trim(longer, limits);
    TrimPicks(longer, limits);
    var gone := multiset(longer) - multiset(q);
    assert |gone| == |longer| - |q| by {
      assert |multiset(longer)| == |longer| && |multiset(q)| == |q|;
    }
    assert multiset(longer) == multiset(st.queue) + multiset{r};
    if |q| == |longer| {
      TrimIsLeastStep(longer, limits, 0);
      assert r in q;
    }
  }

  lemma FlushBalances(st: State, appended: seq<Record>, uploaded: seq<Record>, evicted: multiset<Record>,
      acks: seq<bool>, at: string)
    requires Balanced(st, appended, uploaded, evicted) && AllOk(st.queue)
    ensures Balanced(FlushStep(st, acks, at), appended, uploaded + Sent(st.queue, acks), evicted)
  {
    FlushPartitions(st.queue, acks);
    MalformedIffNotOk(st.queue);
  }

  lemma PicksAreOk(part: seq<Record>, whole: seq<Record>)
    requires multiset(part) <= multiset(whole) && AllOk(whole)
    ensures AllOk(part)
  {
    forall r | r in part ensures WellFormed(r) {
      assert r in multiset(part) && r in multiset(whole) && r in whole;
    }
  }

  lemma {:induction false} RunQueuesTheWellFormed(ops: seq<Op>, limits: Limits)
    requires AllWellFormed(ops)
    ensures AllOk(Run(ops, limits).queue)
  {
    if ops != [] {
      var n := |ops| - 1;
      RunQueuesTheWellFormed(ops[..n], limits);
      var q := Run(ops[..n], limits).queue;
      match ops[n] {
        case Append(r) =>
          assert Append(r) in ops;
          TrimPicks(q + [r], limits);
          PicksAreOk(Trim(q + [r], limits), q + [r]);
        case Flush(acks, _) =>
          FlushPartitions(q, acks);
          MalformedIffNotOk(q);
          PicksAreOk(Unsent(q, acks), q);
      }
    }
  }

  /**
   Over every run of appends and flushes, with any pattern of upload failures, each record appended is
   queued, acknowledged, or counted as dropped, exactly once.
   */
  lemma {:induction false} RunConserves(ops: seq<Op>, limits: Limits)
    requires AllWellFormed(ops)
    ensures Balanced(Run(ops, limits), Appended(ops), Uploaded(ops, limits), Evicted(ops, limits))
  {
    if ops != [] {
      var n := |ops| - 1;
      var before := ops[..n];
      RunConserves(before, limits);
      RunQueuesTheWellFormed(before, limits);
      var st := Run(before, limits);
      match ops[n] {
        case Append(r) =>
          AppendBalances(st, Appended(before), Uploaded(before, limits), Evicted(before, limits), r, limits);
          assert Uploaded(ops, limits) == Uploaded(before, limits);
        case Flush(acks, at) =>
          FlushBalances(st, Appended(before), Uploaded(before, limits), Evicted(before, limits), acks, at);
          assert Appended(ops) == Appended(before) && Evicted(ops, limits) == Evicted(before, limits);
      }
    }
  }

  /** Balanced books in the operator's terms. */
  lemma CountersAddUp(ops: seq<Op>, limits: Limits)
    requires AllWellFormed(ops)
    ensures var st := Run(ops, limits); st.accepted == |st.queue| + st.dropped + st.uploaded
  {
    RunConserves(ops, limits);
    assert |multiset(Appended(ops))| == |Appended(ops)|;
  }

  /** The queue keeps append order, and with the limits fixed both hold after every operation. */
  lemma {:induction false} RunKeepsOrderAndLimits(ops: seq<Op>, limits: Limits)
    ensures Subsequence(Run(ops, limits).queue, Appended(ops)) && Fits(Run(ops, limits).queue, limits)
  {
    if ops != [] {
      var n := |ops| - 1;
      var before := ops[..n];
      RunKeepsOrderAndLimits(before, limits);
      var q := Run(before, limits).queue;
      match ops[n] {
        case Append(r) =>
          TrimIsLeastStep(q + [r], limits, 0);
          TrimIsSubsequence(q + [r], limits);
          SubsequenceAppend(q, Appended(before), r);
          SubsequenceTrans(Trim(q + [r], limits), q + [r], Appended(ops));
        case Flush(acks, _) =>
          FlushKeepsOrder(q, acks);
          assert Appended(ops) == Appended(before);
          SubsequenceTrans(Unsent(q, acks), q, Appended(before));
      }
    }
  }

  // ---------- the spool itself ----------

  class SpoolFile {
    var queue: seq<Record>
    var accepted: nat
    var dropped: nat
    var blocked: nat
    var uploaded: nat
    var replayed: nat
    var retried: nat
    var lastUpload: string

    ghost function Contents(): State
      reads this
    {
      State(queue, accepted, dropped, blocked, uploaded, replayed, retried, lastUpload)
    }

    constructor ()
      ensures Contents() == EMPTY
    {
      queue, accepted, dropped, blocked, uploaded, replayed, retried, lastUpload := [], 0, 0, 0, 0, 0, 0, "";
    }

    /** `now` is the formatted clock reading, never empty. */
    method AppendRecordBounded(r: Record, limits: Limits, now: string)
      requires now != ""
      modifies this
      ensures Contents() == AppendStep(old(Contents()), if r.createdAt == "" then r.(createdAt := now) else r, limits)
    {
      var rec := if r.createdAt == "" then r.(createdAt := now) else r;
      accepted := accepted + 1;
      var trimmed, count, retainedNew := TrimRecords(queue + [rec], rec.createdAt, limits);
      dropped := dropped + count;
      if !retainedNew {
        blocked := blocked + 1;
      }
      queue := trimmed;
    }

    /** `acks[i]` is whether the upload of the i-th queued record succeeds; `uploadedAt` is the time of the flush. */
    method FlushBounded(acks: seq<bool>, uploadedAt: string)
      modifies this
      ensures Contents() == FlushStep(old(Contents()), acks, uploadedAt)
    {
      if |queue| == 0 {
        return;
      }
      var remaining: seq<Record> := [];
      for i := 0 to |queue|
        invariant queue == old(queue) && accepted == old(accepted) && dropped == old(dropped) && blocked == old(blocked)
        invariant remaining == Unsent(queue[..i], acks)
        invariant uploaded == old(uploaded) + |Sent(queue[..i], acks)|
            && replayed == old(replayed) + |Sent(queue[..i], acks)|
        invariant retried == old(retried) + |remaining|
        invariant lastUpload == if |Sent(queue[..i], acks)| > 0 then uploadedAt else old(lastUpload)
      {
        var rec := queue[i];
        assert queue[..i + 1][..i] == queue[..i];
        match rec.kind {
          case Events =>
            if !Acknowledged(acks, i) {
              retried := retried + 1;
              remaining := remaining + [rec];
            } else {
              uploaded := uploaded + 1;
              replayed := replayed + 1;
              lastUpload := uploadedAt;
            }
          case TaskResult =>
            if !rec.hasResult {
              continue;
            }
            if !Acknowledged(acks, i) {
              retried := retried + 1;
              remaining := remaining + [rec];
            } else {
              uploaded := uploaded + 1;
              replayed := replayed + 1;
              lastUpload := uploadedAt;
            }
          case OtherKind =>
        }
      }
      assert queue[..|queue|] == queue;
      queue := remaining;
    }
  }
}
