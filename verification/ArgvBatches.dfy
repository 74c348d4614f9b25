/** Grouping command-line arguments into command lines the operating system accepts
    (`scripts/run_specs.py`). */
module ArgvBatches {

  import opened Wrappers

  datatype BatchError = ArgumentExceedsBudget

  /** The characters an argument adds to a command line: its own and one separator. */
  function Extra(argument: string): nat {
    |argument| + 1
  }

  function Cost(batch: seq<string>): nat {
    if batch == [] then 0 else Cost(batch[..|batch| - 1]) + Extra(batch[|batch| - 1])
  }

  predicate Fits(batch: seq<string>, reserved: int, budget: int) {
    reserved + Cost(batch) <= budget
  }

  function Concat(batches: seq<seq<string>>): seq<string> {
    if batches == [] then [] else batches[0] + Concat(batches[1..])
  }

  predicate AllFit(split: seq<seq<string>>, reserved: int, budget: int) {
    forall i | 0 <= i < |split| :: split[i] != [] ==> Fits(split[i], reserved, budget)
  }

  /** An order-preserving split of `arguments` whose every non-empty batch fits. */
  ghost predicate FittingSplit(split: seq<seq<string>>, arguments: seq<string>, reserved: int, budget: int) {
    Concat(split) == arguments && AllFit(split, reserved, budget)
  }

  /** No batch could also have taken the first argument of the batch after it. */
  ghost predicate Maximal(batches: seq<seq<string>>, reserved: int, budget: int) {
    && (forall i | 0 <= i < |batches| :: batches[i] != [])
    && forall i | 0 < i < |batches| :: !Fits(batches[i - 1] + [batches[i][0]], reserved, budget)
  }

  lemma {:induction false} CostConcat(a: seq<string>, b: seq<string>)
    ensures Cost(a + b) == Cost(a) + Cost(b)
  {
    if b == [] {
      assert a + b == a;
    } else {
      assert (a + b)[..|a + b| - 1] == a + b[..|b| - 1];
      CostConcat(a, b[..|b| - 1]);
    }
  }

  lemma {:induction false} ConcatSnoc(batches: seq<seq<string>>, last: seq<string>)
    ensures Concat(batches + [last]) == Concat(batches) + last
  {
    if batches == [] {
      assert [last][1..] == [];
    } else {
      assert (batches + [last])[1..] == batches[1..] + [last];
      ConcatSnoc(batches[1..], last);
    }
  }

  lemma Cancel(a: seq<string>, b: seq<string>, c: seq<string>, d: seq<string>)
    requires a + b == c + d && |a| <= |c|
    ensures b == c[|a|..] + d
  {
    assert b == (a + b)[|a|..];
    assert (c + d)[|a|..] == c[|a|..] + d;
  }

  /** Greedy stays ahead: when any fitting split has `done` left over before the rest of the arguments,
      a maximal split of the rest needs no more batches than that one has left. */
  lemma {:induction false} MaximalIsFewest(
    greedy: seq<seq<string>>, other: seq<seq<string>>, done: seq<string>, reserved: int, budget: int)
    requires Concat(other) == done + Concat(greedy)
    requires Maximal(greedy, reserved, budget)
    requires AllFit(other, reserved, budget)
    ensures |greedy| <= |other|
    decreases |other|
  {
    if greedy != [] && other != [] {
      if |other[0]| <= |done| {
        Cancel(other[0], Concat(other[1..]), done, Concat(greedy));
        MaximalIsFewest(greedy, other[1..], done[|other[0]|..], reserved, budget);
      } else {
        FirstPasses(greedy, done, other[0], reserved, budget);
        var ahead := done + greedy[0];
        assert done + Concat(greedy) == ahead + Concat(greedy[1..]);
        Cancel(other[0], Concat(other[1..]), ahead, Concat(greedy[1..]));
        MaximalIsFewest(greedy[1..], other[1..], ahead[|other[0]|..], reserved, budget);
      }
    }
  }

  /** A first greedy batch passes the end of any fitting batch it starts inside. */
  lemma FirstPasses(
    greedy: seq<seq<string>>, done: seq<string>, batch: seq<string>, reserved: int, budget: int)
    requires greedy != [] && Maximal(greedy, reserved, budget)
    requires |done| < |batch| && batch <= done + Concat(greedy)
    requires Fits(batch, reserved, budget)
    ensures |batch| <= |done| + |greedy[0]|
  {
    SliceCostsLess(batch, |done|, |batch|);
    var run := batch[|done|..|batch|];
    assert run == (done + Concat(greedy))[|done|..|batch|] == Concat(greedy)[..|run|];
    GreedyReaches(greedy, run, reserved, budget);
  }

  lemma SliceCostsLess(batch: seq<string>, from: nat, to: nat)
    requires from <= to <= |batch|
    ensures Cost(batch[from..to]) <= Cost(batch)
  {
    assert batch[..to] == batch[..from] + batch[from..to];
    CostConcat(batch[..from], batch[from..to]);
    assert batch == batch[..to] + batch[to..];
    CostConcat(batch[..to], batch[to..]);
  }

  /** What the second batch of a maximal split shows: the first one and that argument do not fit. */
  lemma FirstRefused(greedy: seq<seq<string>>, reserved: int, budget: int)
    requires |greedy| > 1
    requires Maximal(greedy, reserved, budget)
    ensures |Concat(greedy)| > |greedy[0]|
    ensures !Fits(Concat(greedy)[..|greedy[0]| + 1], reserved, budget)
  {
    var rest := greedy[1..];
    assert rest[0] == greedy[1];
    assert Concat(greedy) == greedy[0] + (greedy[1] + Concat(rest[1..]));
    assert Concat(greedy)[..|greedy[0]| + 1] == greedy[0] + [greedy[1][0]];
  }

  /** A first greedy batch is at least as long as any fitting run of arguments it starts with. */
  lemma GreedyReaches(greedy: seq<seq<string>>, run: seq<string>, reserved: int, budget: int)
    requires greedy != []
    requires run <= Concat(greedy)
    requires Maximal(greedy, reserved, budget)
    requires Fits(run, reserved, budget)
    ensures |run| <= |greedy[0]|
  {
    if |greedy| == 1 {
      assert greedy == [greedy[0]];
    } else {
      FirstRefused(greedy, reserved, budget);
      if |greedy[0]| < |run| {
        var head := run[0..|greedy[0]| + 1];
        SliceCostsLess(run, 0, |greedy[0]| + 1);
        assert Concat(greedy)[..|greedy[0]| + 1] == head;
        assert Fits(head, reserved, budget);
      }
    }
  }

  /** The batches closed so far and the one being filled, over the arguments seen so far. */
  ghost predicate Packing(
    batches: seq<seq<string>>, current: seq<string>, seen: seq<string>, reserved: int, budget: int) {
    && Concat(batches) + current == seen
    && (forall i | 0 <= i < |seen| :: Fits([seen[i]], reserved, budget))
    && (current == [] ==> seen == [])
    && (current != [] ==> Fits(current, reserved, budget))
    && (forall i | 0 <= i < |batches| :: Fits(batches[i], reserved, budget))
    && Maximal(batches, reserved, budget)
    && (batches != [] && current != [] ==>
          !Fits(batches[|batches| - 1] + [current[0]], reserved, budget))
  }

  /** The batch being filled is closed: after the last argument, or before one that overflows it. */
  lemma CloseBatch(batches: seq<seq<string>>, current: seq<string>, seen: seq<string>, reserved: int, budget: int)
    requires Packing(batches, current, seen, reserved, budget)
    requires current != []
    ensures Concat(batches + [current]) == seen
    ensures Maximal(batches + [current], reserved, budget)
    ensures forall i | 0 <= i < |batches + [current]| :: Fits((batches + [current])[i], reserved, budget)
  {
    ConcatSnoc(batches, current);
  }

  lemma StartBatch(
    batches: seq<seq<string>>, current: seq<string>, seen: seq<string>, argument: string,
    reserved: int, budget: int)
    requires Packing(batches, current, seen, reserved, budget)
    requires current != [] && !Fits(current + [argument], reserved, budget)
    requires Fits([argument], reserved, budget)
    ensures Packing(batches + [current], [argument], seen + [argument], reserved, budget)
  {
    CloseBatch(batches, current, seen, reserved, budget);
  }

  lemma ExtendBatch(
    batches: seq<seq<string>>, current: seq<string>, seen: seq<string>, argument: string,
    reserved: int, budget: int)
    requires Packing(batches, current, seen, reserved, budget)
    requires Fits(current + [argument], reserved, budget)
    ensures Packing(batches, current + [argument], seen + [argument], reserved, budget)
  {
    CostOfOne(current, argument);
    assert Concat(batches) + (current + [argument]) == seen + [argument];
  }

  /** One turn of the loop: an argument that overflows the batch being filled starts the next one. */
  lemma TakeArgument(
    batches: seq<seq<string>>, current: seq<string>, seen: seq<string>, argument: string,
    reserved: int, budget: int)
    requires Packing(batches, current, seen, reserved, budget)
    requires Fits([argument], reserved, budget)
    ensures var full := current != [] && !Fits(current + [argument], reserved, budget);
            Packing(
              if full then batches + [current] else batches,
              if full then [argument] else current + [argument],
              seen + [argument], reserved, budget)
  {
    if current != [] && !Fits(current + [argument], reserved, budget) {
      StartBatch(batches, current, seen, argument, reserved, budget);
    } else {
      assert current == [] ==> current + [argument] == [argument];
      ExtendBatch(batches, current, seen, argument, reserved, budget);
    }
  }

  lemma PackedIsFewest(
    batches: seq<seq<string>>, current: seq<string>, arguments: seq<string>, reserved: int, budget: int)
    requires Packing(batches, current, arguments, reserved, budget)
    ensures forall i | 0 <= i < |arguments| :: Fits([arguments[i]], reserved, budget)
    ensures var closed := if current == [] then batches else batches + [current];
            && FittingSplit(closed, arguments, reserved, budget)
            && (forall i | 0 <= i < |closed| :: closed[i] != [])
            && forall other | FittingSplit(other, arguments, reserved, budget) :: |closed| <= |other|
  {
    var closed := if current == [] then batches else batches + [current];
    if current != [] {
      CloseBatch(batches, current, arguments, reserved, budget);
    }
    forall other | FittingSplit(other, arguments, reserved, budget)
      ensures |closed| <= |other|
    {
      MaximalIsFewest(closed, other, [], reserved, budget);
    }
  }

  lemma FitsAlone(argument: string, reserved: int, budget: int)
    ensures Fits([argument], reserved, budget) <==> reserved + |argument| + 1 <= budget
  {
    CostOfOne([], argument);
  }

  lemma CostOfOne(current: seq<string>, argument: string)
    ensures Cost([argument]) == |argument| + 1
    ensures Cost(current + [argument]) == Cost(current) + |argument| + 1
  {
    CostConcat(current, [argument]);
  }

  /** The arguments as they stand on a command line, each followed by one separator. */
  function Spelled(batch: seq<string>): string {
    if batch == [] then [] else batch[0] + [' '] + Spelled(batch[1..])
  }

  /** A batch fits exactly when what is reserved and its arguments spelled out do. */
  lemma {:induction false} FitsExactly(batch: seq<string>, reserved: int, budget: int)
    ensures Fits(batch, reserved, budget) <==> reserved + |Spelled(batch)| <= budget
    ensures Cost(batch) == |Spelled(batch)|
  {
    if batch != [] {
      FitsExactly(batch[1..], reserved, budget);
      CostConcat([batch[0]], batch[1..]);
      CostOfOne([], batch[0]);
      assert [batch[0]] + batch[1..] == batch;
    }
  }

  /** `argv_batches`: non-empty fitting batches, in order, as few as any split allows; or an
      error exactly when some argument fits no command line of its own. */
  method Batches(arguments: seq<string>, reserved: int, budget: int)
    returns (result: Result<seq<seq<string>>, BatchError>)
    ensures result.Err? <==>
            exists i :: 0 <= i < |arguments| && !Fits([arguments[i]], reserved, budget)
    ensures result.Ok? ==>
              var batches := result.value;
              && FittingSplit(batches, arguments, reserved, budget)
              && (forall i :: 0 <= i < |batches| ==> batches[i] != [])
              && forall other :: FittingSplit(other, arguments, reserved, budget) ==> |batches| <= |other|
  {
    var batches: seq<seq<string>> := [];
    var current: seq<string> := [];
    var length := reserved;
    for next := 0 to |arguments|
      invariant Packing(batches, current, arguments[..next], reserved, budget)
      invariant length == reserved + Cost(current)
    {
      var argument := arguments[next];
      var extra := |argument| + 1;
      CostOfOne(current, argument);
      FitsAlone(argument, reserved, budget);
      ghost var seen := arguments[..next];
      assert arguments[..next + 1] == seen + [argument];
      ghost var closed, filling := batches, current;
      ghost var full := current != [] && !Fits(current + [argument], reserved, budget);
      if current != [] && length + extra > budget {
        batches := batches + [current];
        current := [];
        length := reserved;
      }
      if current == [] && reserved + extra > budget {
        assert !Fits([argument], reserved, budget) && argument == arguments[next];
        return Err(ArgumentExceedsBudget);
      }
      current := current + [argument];
      length := length + extra;
      assert batches == if full then closed + [filling] else closed;
      assert current == if full then [argument] else filling + [argument];
      TakeArgument(closed, filling, seen, argument, reserved, budget);
    }
    assert arguments[..|arguments|] == arguments;
    PackedIsFewest(batches, current, arguments, reserved, budget);
    if current != [] {
      batches := batches + [current];
    }
    result := Ok(batches);
  }
}
