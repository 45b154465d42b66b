/**
 * The fan-out of `main`: one task per variant and sample type, each run
 * through `get_pile_res`, collected into one result that fails as a whole if
 * any task fails, then written out vector by vector. The thread pool is
 * replaced by a loop over the tasks; the lemmas show that the rows do not
 * depend on the order in which the tasks are taken.
 */
module Dispatch {
  import opened Ints
  import opened Wrappers
  import opened Pileup
  import opened Filter
  import opened Depth
  import opened Processor

  /** A variant as the VCF reader returns it; the bases are the bytes of the allele strings. */
  datatype Variant = Variant(chrom: string, pos: nat, refBase: seq<Byte>, altBase: seq<Byte>)

  /** One unit of work: a variant and a sample-type byte. */
  datatype Task = Task(variant: Variant, tntype: Byte)

  /** The filter options of the command line. */
  datatype Args = Args(includeFlags: bv16, excludeFlags: bv16, minMapq: Byte)

  /** `t_n_types`: normal (78, 'N') first, then tumor (84, 'T'). */
  const T_N_TYPES: seq<Byte> := [78, 84]

  /** `variants.iter().cartesian_product(t_n_types.iter())`. */
  function Tasks(variants: seq<Variant>): (tasks: seq<Task>)
    ensures forall t | t in tasks :: t.variant in variants && t.tntype in T_N_TYPES
    decreases |variants|
  {
    if variants == [] then []
    else
      var n := |variants| - 1;
      Tasks(variants[..n]) + [Task(variants[n], T_N_TYPES[0]), Task(variants[n], T_N_TYPES[1])]
  }

  /** `ref_base.as_bytes()[0]` and `alt_base.as_bytes()[0]` panic on an empty allele. */
  predicate Runnable(v: Variant)
  {
    |v.refBase| > 0 && |v.altBase| > 0
  }

  predicate AllRunnable(tasks: seq<Task>)
  {
    forall t | t in tasks :: Runnable(t.variant)
  }

  /** What `get_pile_res` returns for a task: `pos as u32` and the first byte of each allele. */
  function PileResult(processor: DepthProcessor, t: Task): Result<seq<Position>, string>
    requires Runnable(t.variant)
  {
    Processed(processor, t.variant.chrom, TruncateU32(t.variant.pos), t.variant.refBase[0], t.variant.altBase[0], t.tntype)
  }

  /** `get_pile_res`. */
  method GetPileRes(variant: Variant, processor: DepthProcessor, tntype: Byte) returns (r: Result<seq<Position>, string>)
    requires Runnable(variant)
    ensures r == PileResult(processor, Task(variant, tntype))
  {
    var chr := variant.chrom;
    var pos := TruncateU32(variant.pos);
    var refBase := variant.refBase[0];
    var altBase := variant.altBase[0];
    r := Process(processor, chr, pos, refBase, altBase, tntype);
  }

  /**
   * `.map(get_pile_res).collect::<Result<Vec<_>>>()` taken in task order:
   * the first failing task's error, or every task's vector.
   */
  function Collected(processor: DepthProcessor, tasks: seq<Task>): Result<seq<seq<Position>>, string>
    requires AllRunnable(tasks)
    decreases |tasks|
  {
    if tasks == [] then Success([])
    else
      var n := |tasks| - 1;
      assert tasks == tasks[..n] + [tasks[n]];
      match Collected(processor, tasks[..n])
      case Failure(e) => Failure(e)
      case Success(results) =>
        match PileResult(processor, tasks[n])
        case Failure(e) => Failure(e)
        case Success(records) => Success(results + [records])
  }

  /** The writer's nested loop: each task's records in turn. */
  function Rows(results: seq<seq<Position>>): seq<Position>
    decreases |results|
  {
    if results == [] then [] else Rows(results[..|results| - 1]) + results[|results| - 1]
  }

  /** The records a task contributes; none when it fails. */
  function RecordsOf(r: Result<seq<Position>, string>): seq<Position>
  {
    if r.Success? then r.value else []
  }

  /** Every task's records, concatenated in task order. */
  function TaskRows(processor: DepthProcessor, tasks: seq<Task>): seq<Position>
    requires AllRunnable(tasks)
    decreases |tasks|
  {
    if tasks == [] then []
    else
      var n := |tasks| - 1;
      assert tasks == tasks[..n] + [tasks[n]];
      TaskRows(processor, tasks[..n]) + RecordsOf(PileResult(processor, tasks[n]))
  }

  /** The filter and processor `main` builds from the options, unchanged. */
  function ProcessorFor(args: Args, tumor: Bam, normal: Bam): DepthProcessor
  {
    DepthProcessor(tumor, normal, ReadFilter(args.includeFlags, args.excludeFlags, args.minMapq))
  }

  /** What the run writes: nothing and an error if any task fails, else all rows. */
  function Output(processor: DepthProcessor, variants: seq<Variant>): Result<seq<Position>, string>
    requires forall v | v in variants :: Runnable(v)
  {
    match Collected(processor, Tasks(variants))
    case Failure(e) => Failure(e)
    case Success(results) => Success(Rows(results))
  }

  /** One more task taken into the collect. */
  lemma CollectedStep(processor: DepthProcessor, tasks: seq<Task>, i: nat)
    requires i < |tasks| && AllRunnable(tasks[..i + 1])
    ensures AllRunnable(tasks[..i])
    ensures var next := Collected(processor, tasks[..i + 1]);
      match Collected(processor, tasks[..i])
      case Failure(e) => next == Failure(e)
      case Success(results) =>
        match PileResult(processor, tasks[i])
        case Failure(e) => next == Failure(e)
        case Success(records) => next == Success(results + [records])
  {
    assert tasks[..i + 1][..i] == tasks[..i];
    assert tasks[..i + 1][i] == tasks[i];
    assert AllRunnable(tasks[..i]) by {
      forall t | t in tasks[..i] ensures Runnable(t.variant) {
        assert t in tasks[..i + 1];
      }
    }
  }

  /** A failure in a prefix of the tasks is the failure of the whole collect. */
  lemma {:induction false} CollectedPrefixFailure(processor: DepthProcessor, tasks: seq<Task>, k: nat)
    requires AllRunnable(tasks) && k <= |tasks|
    requires Collected(processor, tasks[..k]).Failure?
    ensures Collected(processor, tasks) == Collected(processor, tasks[..k])
    decreases |tasks|
  {
    if k < |tasks| {
      var n := |tasks| - 1;
      var init := tasks[..n];
      assert init[..k] == tasks[..k];
      assert AllRunnable(init) by {
        forall t | t in init ensures Runnable(t.variant) {
          assert t in tasks;
        }
      }
      CollectedPrefixFailure(processor, init, k);
      var e := Collected(processor, init).error;
      assert Collected(processor, tasks) == Failure(e);
    } else {
      assert tasks[..k] == tasks;
    }
  }

  /**
   * The collect fails exactly when some task fails, with that task's
   * message; otherwise it holds every task's vector, in task order.
   */
  lemma {:induction false} CollectedMeaning(processor: DepthProcessor, tasks: seq<Task>)
    requires AllRunnable(tasks)
    ensures var r := Collected(processor, tasks);
      && (r.Failure? <==> exists t | t in tasks :: PileResult(processor, t).Failure?)
      && (r.Failure? ==> exists t | t in tasks :: PileResult(processor, t) == Failure(r.error))
      && (r.Success? ==>
            && |r.value| == |tasks|
            && forall i | 0 <= i < |tasks| :: r.value[i] == PileResult(processor, tasks[i]).value)
    decreases |tasks|
  {
    if tasks != [] {
      var n := |tasks| - 1;
      var init := tasks[..n];
      assert tasks == init + [tasks[n]];
      CollectedMeaning(processor, init);
    }
  }

  /**
   * `main` from the filter options to the written rows, with the tasks taken
   * one after another: the first failing task ends the run before anything
   * is written.
   */
  method Run(args: Args, tumor: Bam, normal: Bam, variants: seq<Variant>) returns (written: Result<seq<Position>, string>)
    requires forall v | v in variants :: Runnable(v)
    ensures written == Output(ProcessorFor(args, tumor, normal), variants)
  {
    var readFilter := ReadFilter(args.includeFlags, args.excludeFlags, args.minMapq);
    var processor := DepthProcessor(tumor, normal, readFilter);
    var tasks := Tasks(variants);
    assert AllRunnable(tasks);
    var results: seq<seq<Position>> := [];
    for i := 0 to |tasks|
      invariant AllRunnable(tasks[..i])
      invariant Collected(processor, tasks[..i]) == Success(results)
    {
      var res := GetPileRes(tasks[i].variant, processor, tasks[i].tntype);
      assert AllRunnable(tasks[..i + 1]) by {
        forall t | t in tasks[..i + 1] ensures Runnable(t.variant) {
          assert t in tasks;
        }
      }
      CollectedStep(processor, tasks, i);
      if res.Failure? {
        CollectedPrefixFailure(processor, tasks, i + 1);
        return Failure(res.error);
      }
      results := results + [res.value];
    }
    assert tasks[..|tasks|] == tasks;
    written := Success(Rows(results));
  }

  /**
   * The product in the order `cartesian_product` yields it: for each variant
   * in turn, first with 78, then with 84; so there are 2N tasks for N variants.
   */
  lemma {:induction false} TasksLayout(variants: seq<Variant>)
    ensures |Tasks(variants)| == |T_N_TYPES| * |variants|
    ensures forall i | 0 <= i < |variants| ::
      Tasks(variants)[2 * i] == Task(variants[i], 78) && Tasks(variants)[2 * i + 1] == Task(variants[i], 84)
    decreases |variants|
  {
    if variants != [] {
      var n := |variants| - 1;
      var init := variants[..n];
      TasksLayout(init);
      var before := Tasks(init);
      var tasks := Tasks(variants);
      assert tasks == before + [Task(variants[n], 78), Task(variants[n], 84)];
      forall i | 0 <= i < |variants|
        ensures tasks[2 * i] == Task(variants[i], 78) && tasks[2 * i + 1] == Task(variants[i], 84)
      {
        if i < n {
          assert variants[i] == init[i];
          assert tasks[2 * i] == before[2 * i] && tasks[2 * i + 1] == before[2 * i + 1];
        }
      }
    }
  }

  /** Each variant is paired once with 78 and once with 84, and nothing else is a task. */
  lemma {:induction false} TasksMultiplicity(variants: seq<Variant>, t: Task)
    ensures multiset(Tasks(variants))[t]
      == if t.tntype == 78 || t.tntype == 84 then multiset(variants)[t.variant] else 0
    decreases |variants|
  {
    if variants != [] {
      var n := |variants| - 1;
      TasksMultiplicity(variants[..n], t);
      assert variants == variants[..n] + [variants[n]];
    }
  }

  /** A successful collect writes exactly the tasks' records in task order. */
  lemma {:induction false} CollectedRows(processor: DepthProcessor, tasks: seq<Task>)
    requires AllRunnable(tasks)
    requires Collected(processor, tasks).Success?
    ensures Rows(Collected(processor, tasks).value) == TaskRows(processor, tasks)
    decreases |tasks|
  {
    if tasks != [] {
      var n := |tasks| - 1;
      assert tasks == tasks[..n] + [tasks[n]];
      CollectedRows(processor, tasks[..n]);
      var results := Collected(processor, tasks[..n]).value;
      var records := PileResult(processor, tasks[n]).value;
      assert (results + [records])[..|results|] == results;
    }
  }

  lemma {:induction false} TaskRowsConcat(processor: DepthProcessor, a: seq<Task>, b: seq<Task>)
    requires AllRunnable(a) && AllRunnable(b)
    ensures AllRunnable(a + b)
    ensures TaskRows(processor, a + b) == TaskRows(processor, a) + TaskRows(processor, b)
    decreases |b|
  {
    if b != [] {
      var n := |b| - 1;
      assert (a + b)[..|a + b| - 1] == a + b[..n];
      assert b == b[..n] + [b[n]];
      TaskRowsConcat(processor, a, b[..n]);
    } else {
      assert a + b == a;
    }
  }

  /** Taking one task out of the middle takes out exactly its records. */
  lemma TaskRowsAround(processor: DepthProcessor, front: seq<Task>, t: Task, back: seq<Task>)
    requires AllRunnable(front) && AllRunnable(back) && Runnable(t.variant)
    ensures AllRunnable(front + back) && AllRunnable(front + [t] + back)
    ensures multiset(TaskRows(processor, front + [t] + back))
      == multiset(TaskRows(processor, front + back)) + multiset(RecordsOf(PileResult(processor, t)))
  {
    assert [t][..0] == [];
    assert TaskRows(processor, [t]) == RecordsOf(PileResult(processor, t));
    TaskRowsConcat(processor, front, back);
    TaskRowsConcat(processor, front, [t]);
    TaskRowsConcat(processor, front + [t], back);
  }

  lemma RemoveOne(ts1: seq<Task>, ts2: seq<Task>, j: nat)
    requires |ts1| > 0 && j < |ts2| && ts2[j] == ts1[|ts1| - 1]
    requires multiset(ts1) == multiset(ts2)
    ensures multiset(ts1[..|ts1| - 1]) == multiset(ts2[..j] + ts2[j + 1..])
  {
    var n := |ts1| - 1;
    var t := ts1[n];
    var front, back := ts2[..j], ts2[j + 1..];
    assert ts1 == ts1[..n] + [t];
    assert ts2 == front + [t] + back;
    calc {
      multiset(ts1[..n]);
      multiset(ts1[..n]) + multiset{t} - multiset{t};
      multiset(ts1) - multiset{t};
      multiset(ts2) - multiset{t};
      multiset(front) + multiset{t} + multiset(back) - multiset{t};
      multiset(front) + multiset(back);
      multiset(front + back);
    }
  }

  /**
   * The rows, as a multiset, do not depend on the order of the tasks: any
   * reordering, such as the one the thread pool produces, writes the same rows.
   */
  lemma {:induction false} TaskRowsOrderFree(processor: DepthProcessor, ts1: seq<Task>, ts2: seq<Task>)
    requires AllRunnable(ts1) && AllRunnable(ts2)
    requires multiset(ts1) == multiset(ts2)
    ensures multiset(TaskRows(processor, ts1)) == multiset(TaskRows(processor, ts2))
    decreases |ts1|
  {
    if ts1 == [] {
      assert |ts2| == |multiset(ts2)| == 0;
    } else {
      var n := |ts1| - 1;
      var t := ts1[n];
      assert ts1 == ts1[..n] + [t];
      assert t in multiset(ts2);
      var j :| 0 <= j < |ts2| && ts2[j] == t;
      var front, back := ts2[..j], ts2[j + 1..];
      assert ts2 == front + [t] + back;
      assert AllRunnable(front) && AllRunnable(back) by {
        forall u | u in front || u in back ensures u in ts2 { }
      }
      RemoveOne(ts1, ts2, j);
      TaskRowsAround(processor, front, t, back);
      TaskRowsOrderFree(processor, ts1[..n], front + back);
    }
  }

  /**
   * The output of a run: it fails exactly when some (variant, sample type)
   * task fails, and otherwise holds, for any order of the tasks, exactly the
   * multiset union of the tasks' records, each written once.
   */
  lemma OutputIsUnionOfTasks(processor: DepthProcessor, variants: seq<Variant>, order: seq<Task>)
    requires forall v | v in variants :: Runnable(v)
    requires multiset(order) == multiset(Tasks(variants))
    ensures AllRunnable(order)
    ensures Output(processor, variants).Failure? <==>
      exists t | t in order :: PileResult(processor, t).Failure?
    ensures Output(processor, variants).Success? ==>
      multiset(Output(processor, variants).value) == multiset(TaskRows(processor, order))
  {
    var tasks := Tasks(variants);
    forall t | t in order ensures t in tasks && Runnable(t.variant) {
      assert t in multiset(order);
    }
    forall t | t in tasks ensures t in order {
      assert t in multiset(tasks);
    }
    CollectedMeaning(processor, tasks);
    if Collected(processor, tasks).Success? {
      CollectedRows(processor, tasks);
      TaskRowsOrderFree(processor, tasks, order);
    }
  }

  /** A task's records are all at its variant's position and labelled with its sample type. */
  lemma {:induction false} TaskRowsFrom(processor: DepthProcessor, tasks: seq<Task>)
    requires AllRunnable(tasks)
    ensures forall p | p in TaskRows(processor, tasks) :: exists t | t in tasks ::
      && p.pos == TruncateU32(t.variant.pos)
      && (t.tntype == 84 ==> p.tntype == "T") && (t.tntype == 78 ==> p.tntype == "N")
      && (t.tntype == 84 || t.tntype == 78)
    decreases |tasks|
  {
    if tasks != [] {
      var n := |tasks| - 1;
      assert tasks == tasks[..n] + [tasks[n]];
      TaskRowsFrom(processor, tasks[..n]);
      var t := tasks[n];
      ProcessedDispatch(processor, t.variant.chrom, TruncateU32(t.variant.pos), t.variant.refBase[0], t.variant.altBase[0], t.tntype);
    }
  }

  /**
   * Every written row is at the position of one of the variants and carries
   * the label "T" or "N".
   */
  lemma OutputRowsAtVariants(processor: DepthProcessor, variants: seq<Variant>)
    requires forall v | v in variants :: Runnable(v)
    ensures Output(processor, variants).Success? ==>
      forall p | p in Output(processor, variants).value ::
        (p.tntype == "T" || p.tntype == "N") && exists v | v in variants :: p.pos == TruncateU32(v.pos)
  {
    var tasks := Tasks(variants);
    if Collected(processor, tasks).Success? {
      CollectedRows(processor, tasks);
      TaskRowsFrom(processor, tasks);
    }
  }

  /** With one column per position in every fetch, each task adds at most one row. */
  lemma {:induction false} TaskRowsAtMostOnePerTask(processor: DepthProcessor, tasks: seq<Task>)
    requires AllRunnable(tasks)
    requires OneColumnPerPosition(processor.tumorReads) && OneColumnPerPosition(processor.normalReads)
    ensures |TaskRows(processor, tasks)| <= |tasks|
    decreases |tasks|
  {
    if tasks != [] {
      var n := |tasks| - 1;
      assert tasks == tasks[..n] + [tasks[n]];
      TaskRowsAtMostOnePerTask(processor, tasks[..n]);
      var t := tasks[n];
      var chrom, pos := t.variant.chrom, TruncateU32(t.variant.pos);
      var refBase, altBase := t.variant.refBase[0], t.variant.altBase[0];
      ProcessedDispatch(processor, chrom, pos, refBase, altBase, t.tntype);
      RegionAtMostOne(processor.readFilter, chrom, pos, processor.tumorReads, refBase, altBase, t.tntype);
      RegionAtMostOne(processor.readFilter, chrom, pos, processor.normalReads, refBase, altBase, t.tntype);
    }
  }

  /** So a run over N variants writes at most 2N rows. */
  lemma OutputBound(processor: DepthProcessor, variants: seq<Variant>)
    requires forall v | v in variants :: Runnable(v)
    requires OneColumnPerPosition(processor.tumorReads) && OneColumnPerPosition(processor.normalReads)
    ensures Output(processor, variants).Success? ==> |Output(processor, variants).value| <= 2 * |variants|
  {
    var tasks := Tasks(variants);
    if Collected(processor, tasks).Success? {
      TasksLayout(variants);
      CollectedRows(processor, tasks);
      TaskRowsAtMostOnePerTask(processor, tasks);
    }
  }
}
