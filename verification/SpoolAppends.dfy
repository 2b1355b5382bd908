/**
 What an append does to the record it brings and to those already queued: whether the record stays, and
 what is lost for it, told from the queue before the append.
 */
module SpoolAppends {
  import opened Spool
  import opened Collections

  lemma {:induction false} ClassesSnoc(s: seq<Record>, r: Record)
    ensures Telemetry(s + [r]) == Telemetry(s) + (if IsTask(r) then [] else [r])
    ensures Tasks(s + [r]) == Tasks(s) + (if IsTask(r) then [r] else [])
  {
    if s == [] {
      assert s + [r] == [r];
    } else {
      assert (s + [r])[1..] == s[1..] + [r];
      ClassesSnoc(s[1..], r);
    }
  }

  lemma {:induction false} ClassMembers(s: seq<Record>, r: Record)
    ensures r in Telemetry(s) <==> r in s && !IsTask(r)
    ensures r in Tasks(s) <==> r in s && IsTask(r)
  {
    if s != [] {
      ClassMembers(s[1..], r);
    }
  }

  lemma {:induction false} TasksAloneAreSmaller(s: seq<Record>)
    ensures |Tasks(s)| <= |s| && Size(Tasks(s)) <= Size(s)
  {
    if s != [] {
      var n := |s| - 1;
      TasksAloneAreSmaller(s[..n]);
      ClassesSnoc(s[..n], s[n]);
      assert s == s[..n] + [s[n]];
      SizeAppend(Tasks(s[..n]), s[n]);
      assert Tasks(s[..n]) + [] == Tasks(s[..n]);
    }
  }

  lemma {:induction false} EvictAllTelemetry(s: seq<Record>)
    ensures |Telemetry(s)| <= |s| && Evict(s, |Telemetry(s)|) == Tasks(s)
    decreases |s|
  {
    if s == [] {
    } else if Telemetry(s) == [] {
      NoTelemetryIsAllTasks(s);
    } else {
      EvictOnceClasses(s);
      EvictAllTelemetry(EvictOnce(s));
    }
  }

  lemma {:induction false} NoTelemetryIsAllTasks(s: seq<Record>)
    requires Telemetry(s) == []
    ensures Tasks(s) == s
  {
    if s != [] {
      assert IsTask(s[0]);
      NoTelemetryIsAllTasks(s[1..]);
    }
  }

  /** In a spool that meets its limits, no amount of telemetry costs a task result. */
  lemma TelemetryNeverDropsATask(q: seq<Record>, r: Record, limits: Limits)
    requires Fits(q, limits) && !IsTask(r)
    ensures Tasks(Trim(q + [r], limits)) == Tasks(q)
  {
    var s := q + [r];
    ClassesSnoc(q, r);
    assert Tasks(s) == Tasks(q);
    TasksAloneAreSmaller(q);
    EvictAllTelemetry(s);
    assert Fits(Tasks(s), limits);
    TrimKeepsTasks(s, limits);
  }

  lemma TrimKeepsTasks(s: seq<Record>, limits: Limits)
    requires |Telemetry(s)| <= |s| && Fits(Evict(s, |Telemetry(s)|), limits)
    ensures Tasks(Trim(s, limits)) == Tasks(s)
  {
    var k := |s| - |Trim(s, limits)|;
    TrimIsLeastStep(s, limits, |Telemetry(s)|);
    EvictedTelemetryOnly(s, k);
  }

  lemma {:induction false} EvictedTelemetryOnly(s: seq<Record>, k: nat)
    requires k <= |Telemetry(s)| && k <= |s|
    ensures Tasks(Evict(s, k)) == Tasks(s) && Telemetry(Evict(s, k)) == Telemetry(s)[k..]
  {
    if k > 0 {
      EvictOnceClasses(s);
      EvictedTelemetryOnly(EvictOnce(s), k - 1);
    }
  }

  /** The records of the same class as `r`. */
  function ClassOf(r: Record, s: seq<Record>): seq<Record> {
    if IsTask(r) then Tasks(s) else Telemetry(s)
  }

  /**
   What becomes of the appended record, which is the newest of its class: it survives iff any record of its
   class does. So a lost telemetry record leaves only task results, and a lost task result leaves nothing.
   */
  lemma AppendedIsLastToGo(q: seq<Record>, r: Record, limits: Limits)
    ensures var after := Trim(q + [r], limits);
      && (ClassOf(r, after) != [] ==> ClassOf(r, after)[|ClassOf(r, after)| - 1] == r && r in after)
      && (ClassOf(r, after) == [] ==> Telemetry(after) == [] && (IsTask(r) ==> after == []))
  {
    var after := Trim(q + [r], limits);
    TrimKeepsNewest(q + [r], limits);
    ClassesSnoc(q, r);
    ClassMembers(after, r);
    if ClassOf(r, after) != [] {
      SuffixLast(ClassOf(r, after), ClassOf(r, q), r);
    } else if IsTask(r) {
      assert Tasks(q + [r]) != [];
      NoTelemetryIsAllTasks(after);
    }
  }

  lemma SuffixLast<T>(a: seq<T>, b: seq<T>, x: T)
    requires a != [] && SuffixOf(a, b + [x])
    ensures a[|a| - 1] == x && x in a
  {
    assert a[|a| - 1] == (b + [x])[|b|];
  }

  /** The records that may keep `r` out: for telemetry the task results, for a task result none. */
  function Rivals(q: seq<Record>, r: Record): seq<Record> {
    if IsTask(r) then [] else Tasks(q)
  }

  lemma {:induction false} EvictAdds(s: seq<Record>, j: nat, k: nat)
    requires j + k <= |s|
    ensures Evict(s, j + k) == Evict(Evict(s, j), k)
  {
    if j > 0 {
      EvictAdds(EvictOnce(s), j - 1, k);
    }
  }

  lemma EvictOnceIsSmaller(s: seq<Record>)
    requires s != []
    ensures Size(EvictOnce(s)) <= Size(s)
  {
    var i := DropIndex(s);
    assert s == s[..i] + [s[i]] + s[i + 1..];
    SizeConcat(s[..i] + [s[i]], s[i + 1..]);
    SizeAppend(s[..i], s[i]);
    SizeConcat(s[..i], s[i + 1..]);
  }

  lemma {:induction false} SizeConcat(a: seq<Record>, b: seq<Record>)
    ensures Size(a + b) == Size(a) + Size(b)
  {
    if b == [] {
      assert a + b == a;
    } else {
      assert (a + b)[..|a + b| - 1] == a + b[..|b| - 1];
      SizeConcat(a, b[..|b| - 1]);
    }
  }

  /** Evicting more never stops a spool from fitting. */
  lemma {:induction false} EvictFits(s: seq<Record>, k: nat, limits: Limits)
    requires k <= |s| && Fits(s, limits)
    ensures Fits(Evict(s, k), limits)
  {
    if k > 0 {
      EvictOnceIsSmaller(s);
      EvictFits(EvictOnce(s), k - 1, limits);
    }
  }

  lemma {:induction false} AllTasksClasses(s: seq<Record>)
    requires forall x | x in s :: IsTask(x)
    ensures Tasks(s) == s && Telemetry(s) == []
  {
    if s != [] {
      AllTasksClasses(s[1..]);
    }
  }

  lemma EvictOnceTask(s: seq<Record>)
    requires s != [] && Telemetry(s) == []
    ensures EvictOnce(s) == s[1..] && Telemetry(s[1..]) == []
  {
    NoTelemetryIsAllTasks(s);
    EvictOnceClasses(s);
    NoTelemetryIsAllTasks(EvictOnce(s));
  }

  /** A spool of task results only gives them up from the front. */
  lemma {:induction false} EvictTasks(s: seq<Record>, k: nat)
    requires k <= |s| && Telemetry(s) == []
    ensures Evict(s, k) == s[k..] && Telemetry(s[k..]) == []
  {
    if k > 0 {
      EvictOnceTask(s);
      EvictTasks(s[1..], k - 1);
      assert s[1..][k - 1..] == s[k..];
    }
  }

  lemma TasksOnly(q: seq<Record>)
    ensures Tasks(Tasks(q)) == Tasks(q) && Telemetry(Tasks(q)) == []
  {
    forall x | x in Tasks(q) ensures IsTask(x) {
      ClassMembers(q, x);
    }
    AllTasksClasses(Tasks(q));
  }

  /** Just before the appended record would go, it stands behind its rivals and nothing else is left. */
  lemma LastStand(q: seq<Record>, r: Record)
    ensures var k := |q| - |Rivals(q, r)|;
      0 <= k <= |q| && Evict(q + [r], k) == Rivals(q, r) + [r] && Evict(q + [r], k + 1) == Rivals(q, r)
  {
    CountClasses(q);
    if IsTask(r) {
      NewTaskStandsLast(q, r);
    } else {
      EvictAllTelemetry(q);
      EvictTelemetryBefore(q, r, |Telemetry(q)|);
      ClassesSnoc(q, r);
      EvictAllTelemetry(q + [r]);
      Plain(Tasks(q));
    }
  }

  lemma NewTaskStandsLast(q: seq<Record>, r: Record)
    requires IsTask(r)
    ensures Evict(q + [r], |q|) == [] + [r] && Evict(q + [r], |q| + 1) == []
  {
    CountClasses(q);
    ClassesSnoc(q, r);
    Plain(Telemetry(q));
    EvictAllTelemetry(q + [r]);
    TasksOnly(q + [r]);
    EvictFrontTasks(q + [r], |Telemetry(q)|, |q|, Tasks(q), r);
  }

  lemma EvictFrontTasks(s: seq<Record>, j: nat, k: nat, tasks: seq<Record>, r: Record)
    requires k == j + |tasks| && |s| == k + 1 && Evict(s, j) == tasks + [r] && Telemetry(tasks + [r]) == []
    ensures Evict(s, k) == [] + [r] && Evict(s, k + 1) == []
  {
    EvictAdds(s, j, |tasks|);
    EvictTasks(tasks + [r], |tasks|);
    LastOf(tasks, r);
    EvictAdds(s, k, 1);
    EvictOnlyOne(r);
  }

  lemma LastOf(s: seq<Record>, r: Record)
    ensures (s + [r])[|s|..] == [r] == [] + [r]
  {
  }

  lemma EvictOnlyOne(r: Record)
    ensures Evict([r], 1) == []
  {
    assert EvictOnce([r]) == [];
  }

  lemma {:induction false} CountClasses(s: seq<Record>)
    ensures |Tasks(s)| + |Telemetry(s)| == |s|
  {
    if s != [] {
      CountClasses(s[1..]);
    }
  }

  /** While older telemetry is left, new telemetry is not touched. */
  lemma {:induction false} EvictTelemetryBefore(q: seq<Record>, r: Record, k: nat)
    requires !IsTask(r) && k <= |Telemetry(q)| && k <= |q|
    ensures Evict(q + [r], k) == Evict(q, k) + [r]
  {
    if k > 0 {
      DropIndexBefore(q, r);
      EvictOnceClasses(q);
      assert EvictOnce(q + [r]) == EvictOnce(q) + [r];
      EvictTelemetryBefore(EvictOnce(q), r, k - 1);
    }
  }

  lemma {:induction false} DropIndexBefore(q: seq<Record>, r: Record)
    requires Telemetry(q) != []
    ensures DropIndex(q + [r]) == DropIndex(q)
  {
    if IsTask(q[0]) {
      assert (q + [r])[1..] == q[1..] + [r];
      DropIndexBefore(q[1..], r);
      TelemetryPicksItself(q[1..]);
    }
  }

  lemma {:induction false} TelemetryPicksItself(q: seq<Record>)
    requires Telemetry(q) != []
    ensures !IsTask(q[DropIndex(q)])
  {
    if IsTask(q[0]) {
      TelemetryPicksItself(q[1..]);
    }
  }

  /**
   Which appended records survive, told from the queue before: exactly those that fit beside their rivals.
   Otherwise the append leaves what trimming the rivals alone would leave.
   */
  lemma SurvivesIff(q: seq<Record>, r: Record, limits: Limits)
    ensures ClassOf(r, Trim(q + [r], limits)) != [] <==> Fits(Rivals(q, r) + [r], limits)
    ensures !Fits(Rivals(q, r) + [r], limits) ==> Trim(q + [r], limits) == Trim(Rivals(q, r), limits)
  {
    var k := |q| - |Rivals(q, r)|;
    LastStand(q, r);
    if Fits(Rivals(q, r) + [r], limits) {
      TrimStopsAt(q + [r], k, Rivals(q, r) + [r], limits);
      EarlierSurvives(q, r, |q + [r]| - |Trim(q + [r], limits)|);
      TrimIsStep(q + [r], limits);
    } else {
      TrimPasses(q + [r], k, Rivals(q, r) + [r], Rivals(q, r), limits);
      RivalsAreNotOfItsClass(q, r, limits);
    }
  }

  lemma TrimStopsAt(s: seq<Record>, k: nat, stand: seq<Record>, limits: Limits)
    requires k <= |s| && Evict(s, k) == stand && Fits(stand, limits)
    ensures |s| - |Trim(s, limits)| <= k
  {
    TrimIsLeastStep(s, limits, k);
  }

  lemma TrimPasses(s: seq<Record>, k: nat, stand: seq<Record>, rest: seq<Record>, limits: Limits)
    requires k < |s| && Evict(s, k) == stand && Evict(s, k + 1) == rest && !Fits(stand, limits)
    ensures Trim(s, limits) == Trim(rest, limits)
  {
    TrimGoesPast(s, k, limits);
    TrimAfterEvict(s, k + 1, limits);
  }

  lemma TrimGoesPast(s: seq<Record>, k: nat, limits: Limits)
    requires k <= |s|
    ensures |s| - |Trim(s, limits)| > k || Fits(Evict(s, k), limits)
  {
    var gone := |s| - |Trim(s, limits)|;
    TrimIsLeastStep(s, limits, 0);
    if gone <= k {
      EvictAdds(s, gone, k - gone);
      EvictFits(Trim(s, limits), k - gone, limits);
    }
  }

  /** Up to its last stand the appended record is there. */
  lemma EarlierSurvives(q: seq<Record>, r: Record, gone: nat)
    requires gone <= |q| - |Rivals(q, r)|
    ensures ClassOf(r, Evict(q + [r], gone)) != []
  {
    var s := q + [r];
    var left := Evict(s, gone);
    LastStand(q, r);
    EvictAdds(s, gone, |q| - |Rivals(q, r)| - gone);
    EvictKeepsMembers(left, |q| - |Rivals(q, r)| - gone, r);
    assert (Rivals(q, r) + [r])[|Rivals(q, r)|] == r;
    ClassMembers(left, r);
  }

  lemma {:induction false} EvictKeepsMembers(s: seq<Record>, k: nat, r: Record)
    requires k <= |s|
    ensures r in Evict(s, k) ==> r in s
  {
    if k > 0 {
      EvictKeepsMembers(EvictOnce(s), k - 1, r);
    }
  }

  /** Trimming does not care about evictions it would have made anyway. */
  lemma {:induction false} TrimAfterEvict(s: seq<Record>, k: nat, limits: Limits)
    requires k <= |s| - |Trim(s, limits)|
    ensures Trim(Evict(s, k), limits) == Trim(s, limits)
    decreases k
  {
    if k > 0 {
      TrimAfterEvict(EvictOnce(s), k - 1, limits);
    }
  }

  lemma RivalsAreNotOfItsClass(q: seq<Record>, r: Record, limits: Limits)
    ensures ClassOf(r, Trim(Rivals(q, r), limits)) == []
  {
    TasksOnly(q);
    TrimKeepsNewest(Rivals(q, r), limits);
  }

  /** The blocked counter, told from the queue before the append. */
  lemma BlockedIsExact(st: State, r: Record, limits: Limits)
    ensures AppendStep(st, r, limits).blocked ==
            st.blocked + if !Fits(Rivals(st.queue, r) + [r], limits)
                && !HasStamp(Trim(Rivals(st.queue, r), limits), r.createdAt) then 1 else 0
  {
    SurvivesIff(st.queue, r, limits);
    AppendedIsLastToGo(st.queue, r, limits);
  }

  /** No task result of the queue has the time stamp. */
  predicate IsNewStamp(q: seq<Record>, stamp: string) {
    forall i | 0 <= i < |q| && q[i].kind == TaskResult :: q[i].createdAt != stamp
  }

  /**
   A spool within its limits, and a time stamp none of its task results has: blocked iff it does not fit beside
   them.
   */
  lemma BlockedIffItDoesNotFit(st: State, r: Record, limits: Limits)
    requires Fits(st.queue, limits) && IsNewStamp(st.queue, r.createdAt)
    ensures AppendStep(st, r, limits).blocked == st.blocked + if Fits(Rivals(st.queue, r) + [r], limits) then 0 else 1
  {
    BlockedIsExact(st, r, limits);
    TasksAloneAreSmaller(st.queue);
    TrimIsLeastStep(Rivals(st.queue, r), limits, 0);
    forall x | x in Tasks(st.queue) ensures x.createdAt != r.createdAt {
      ClassMembers(st.queue, x);
    }
  }

  /**
   The decision record wants a record that cannot fit kept out of the spool. The code keeps the queue as it
   was in that case iff the queue holds nothing but the record's rivals: no telemetry, and for a task result
   nothing at all.
   */
  lemma RefusalKeepsQueueIff(q: seq<Record>, r: Record, limits: Limits)
    requires Fits(q, limits) && !Fits(Rivals(q, r) + [r], limits)
    ensures Trim(q + [r], limits) == Rivals(q, r)
    ensures Trim(q + [r], limits) == q <==> if IsTask(r) then q == [] else forall x | x in q :: IsTask(x)
  {
    SurvivesIff(q, r, limits);
    TasksAloneAreSmaller(q);
    TrimIsLeastStep(Rivals(q, r), limits, 0);
    if !IsTask(r) {
      if forall x | x in q :: IsTask(x) {
        AllTasksClasses(q);
      } else {
        var x :| x in q && !IsTask(x);
        ClassMembers(q, x);
      }
    }
  }

  /**
   The decision record blocks a record that does not fit beside all task results. In that case the code
   still lets it in iff it is a task result that fits by itself: then older task results make room for it.
   */
  lemma EntersThoughFullIff(q: seq<Record>, r: Record, limits: Limits)
    requires !Fits(Tasks(q) + [r], limits)
    ensures r in Trim(q + [r], limits) <==> IsTask(r) && Fits([r], limits)
  {
    SurvivesIff(q, r, limits);
    AppendedIsLastToGo(q, r, limits);
    ClassMembers(Trim(q + [r], limits), r);
    LastOf([], r);
  }

  /** And the queue then stays as it was iff it held task results only or, for a task result, nothing. */
  lemma FullKeepsQueueIff(q: seq<Record>, r: Record, limits: Limits)
    requires Fits(q, limits) && !Fits(Tasks(q) + [r], limits) && r !in q
    ensures Trim(q + [r], limits) == q <==> if IsTask(r) then q == [] else forall x | x in q :: IsTask(x)
  {
    EntersThoughFullIff(q, r, limits);
    LastOf([], r);
    if !(IsTask(r) && Fits([r], limits)) {
      RefusalKeepsQueueIff(q, r, limits);
    }
  }

  /** Two task results that do not fit together: the new one takes the place of the old one, and none is blocked. */
  lemma NewResultReplacesOldResult(a: Record, b: Record)
    requires a.kind == b.kind == TaskResult && a.size == b.size == 60
    ensures var st := Run([Append(a)], Limits(100, 0));
      && st.queue == [a] && !Fits(Tasks(st.queue) + [b], Limits(100, 0))
      && AppendStep(st, b, Limits(100, 0)) == State([b], 2, 1, 0, 0, 0, 0, "")
  {
    var limits := Limits(100, 0);
    TwoRecords(a, b);
    TwoRecords(b, b);
    FirstAppend(a, limits);
    TwoTasks(a, b);
    TrimTwo(a, b, limits);
  }

  /** An append that needs no trimming. */
  lemma AppendFits(st: State, r: Record, limits: Limits)
    requires Fits(st.queue + [r], limits)
    ensures AppendStep(st, r, limits) == st.(queue := st.queue + [r], accepted := st.accepted + 1)
  {
    assert r in st.queue + [r];
  }

  lemma RunAppend(ops: seq<Op>, r: Record, limits: Limits)
    ensures Run(ops + [Append(r)], limits) == AppendStep(Run(ops, limits), r, limits)
    ensures ops == [] ==> ops + [Append(r)] == [Append(r)]
  {
    assert (ops + [Append(r)])[..|ops|] == ops;
  }

  lemma FirstAppend(a: Record, limits: Limits)
    requires Fits([a], limits)
    ensures Run([Append(a)], limits) == State([a], 1, 0, 0, 0, 0, 0, "")
  {
    LastOf([], a);
    RunAppend([], a, limits);
    AppendFits(EMPTY, a, limits);
  }

  lemma TwoTasks(a: Record, b: Record)
    requires IsTask(a) && IsTask(b)
    ensures Tasks([a]) == [a] && EvictOnce([a, b]) == [b]
  {
    assert [a][1..] == [] && [a] + [] == [a];
    assert [a, b][1..] == [b] && [a, b][..0] + [a, b][1..] == [b];
  }

  lemma TrimTwo(a: Record, b: Record, limits: Limits)
    requires EvictOnce([a, b]) == [b] && !Fits([a, b], limits) && Fits([b], limits)
    ensures Trim([a, b], limits) == [b] && HasStamp([b], b.createdAt)
  {
    assert b in [b];
    assert Trim([a, b], limits) == Trim([b], limits);
  }

  /** Two small records and one that can never fit: all three are gone, three count as dropped, one as blocked. */
  lemma OversizeRecordEmptiesTheSpool(a: Record, b: Record, r: Record)
    requires a.kind == b.kind == r.kind == Events && a.size == b.size == 40 && r.size == 101
    ensures var st := Run([Append(a), Append(b)], Limits(100, 0));
      st.queue == [a, b] && AppendStep(st, r, Limits(100, 0)) == State([], 3, 3, 1, 0, 0, 0, "")
  {
    var limits := Limits(100, 0);
    TwoRecords(a, b);
    FirstAppend(a, limits);
    RunAppend([Append(a)], b, limits);
    AppendFits(Run([Append(a)], limits), b, limits);
    assert [Append(a)] + [Append(b)] == [Append(a), Append(b)];
    LargestIsLost([a, b], r, limits);
  }

  lemma LargestIsLost(q: seq<Record>, r: Record, limits: Limits)
    requires |q| == 2 && !IsTask(q[0]) && !IsTask(q[1]) && !IsTask(r) && 0 < limits.maxBytes < r.size
    ensures Trim(q + [r], limits) == [] && Tasks(q) == []
  {
    NoTasksHere(q[0], q[1]);
    assert q == [q[0], q[1]];
    TwoRecords(r, r);
    SurvivesIff(q, r, limits);
  }

  lemma TwoRecords(a: Record, b: Record)
    ensures [] + [a] == [a] && [a] + [b] == [a, b] && Size([a]) == a.size && Size([a, b]) == a.size + b.size
  {
    assert [a, b][..1] == [a] && [a][..0] == [];
    SizeAppend([], a);
    SizeAppend([a], b);
  }

  lemma NoTasksHere(a: Record, b: Record)
    requires !IsTask(a) && !IsTask(b)
    ensures Tasks([a, b]) == []
  {
    assert [a, b][1..] == [b] && [b][1..] == [];
    assert Tasks([b]) == [] + Tasks([b][1..]);
  }
}
