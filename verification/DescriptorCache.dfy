/** gusb-device.c: the interface and BOS arrays, filled by the first query and emptied on request. */
module DescriptorCache {
  import opened Basics

  datatype Cache<T> = Cache(valid: bool, items: seq<T>)

  /** A query asks the device, which may fail; invalidating forgets. */
  datatype Op<T> = Query(answer: Option<seq<T>>) | Invalidate

  function Empty<T>(): Cache<T> { Cache(false, []) }

  /** The answer is only asked for when the cache is not valid, and is appended to the array. */
  function AfterQuery<T>(c: Cache<T>, answer: Option<seq<T>>): Cache<T> {
    if c.valid || answer.None? then c else Cache(true, c.items + answer.value)
  }

  lemma {:induction false} AskedTwice<T>(c: Cache<T>, answer: Option<seq<T>>)
    ensures AfterQuery(AfterQuery(c, answer), answer) == AfterQuery(c, answer)
  {
  }

  function Run<T>(ops: seq<Op<T>>): Cache<T> {
    if ops == [] then Empty()
    else
      var n := |ops| - 1;
      match ops[n]
      case Query(answer) => AfterQuery(Run(ops[..n]), answer)
      case Invalidate => Empty()
  }

  /** From start, the beginning or just after an invalidation, every query up to end failed. */
  ghost predicate Fruitless<T>(ops: seq<Op<T>>, start: nat, end: nat) {
    && start <= end <= |ops|
    && (start == 0 || ops[start - 1].Invalidate?)
    && forall i :: start <= i < end ==> ops[i].Query? && ops[i].answer.None?
  }

  /** The first answer after the last invalidation. */
  ghost predicate FirstAnswer<T>(ops: seq<Op<T>>, at: nat) {
    && at < |ops| && ops[at].Query? && ops[at].answer.Some?
    && (forall i :: at < i < |ops| ==> ops[i].Query?)
    && exists start: nat :: Fruitless(ops, start, at)
  }

  /**
   * After any run of queries and invalidations an invalid cache is empty, and a valid one holds
   * exactly the first answer since the last invalidation: nothing stale and nothing twice.
   */
  lemma {:induction false} CacheIsFirstAnswer<T>(ops: seq<Op<T>>)
    ensures !Run(ops).valid ==> Run(ops).items == [] && exists start: nat :: Fruitless(ops, start, |ops|)
    ensures Run(ops).valid ==> exists at: nat :: FirstAnswer(ops, at) && Run(ops).items == ops[at].answer.value
  {
    if ops == [] {
      assert Fruitless(ops, 0, 0);
    } else {
      var n := |ops| - 1;
      var earlier, before := ops[..n], Run(ops[..n]);
      CacheIsFirstAnswer(earlier);
      if ops[n].Invalidate? {
        assert Fruitless(ops, |ops|, |ops|);
      } else if before.valid {
        var at: nat :| FirstAnswer(earlier, at) && before.items == earlier[at].answer.value;
        var start: nat :| Fruitless(earlier, start, at);
        assert Fruitless(ops, start, at);
        assert FirstAnswer(ops, at);
      } else {
        var start: nat :| Fruitless(earlier, start, n);
        assert Fruitless(ops, start, n);
        if ops[n].answer.Some? {
          assert FirstAnswer(ops, n);
          assert before.items + ops[n].answer.value == ops[n].answer.value;
        } else {
          assert Fruitless(ops, start, |ops|);
        }
      }
    }
  }

  // ---- the HID array ----

  /** A query reads descriptors up to the first failure; invalidating empties the array but not its flag. */
  datatype HidOp<T> = Ask(read: seq<T>, complete: bool) | Forget

  function AfterHid<T>(c: Cache<T>, op: HidOp<T>): Cache<T> {
    match op
    case Ask(read, complete) => if c.valid then c else Cache(complete, c.items + read)
    case Forget => c.(items := [])
  }

  /**
   * So a query after an invalidation does not ask again: it returns what the device answers
   * exactly when the cache was not valid or the device has nothing to answer.
   */
  lemma {:induction false} HidCacheGoesStale<T>(c: Cache<T>, answer: seq<T>)
    ensures AfterHid(AfterHid(c, Forget), Ask(answer, true)).items == answer <==> !c.valid || answer == []
  {
    assert [] + answer == answer;
  }

  function HidRun<T>(ops: seq<HidOp<T>>): Cache<T> {
    if ops == [] then Empty() else AfterHid(HidRun(ops[..|ops| - 1]), ops[|ops| - 1])
  }

  /** What the queries from a position on have read. */
  function ReadFrom<T>(ops: seq<HidOp<T>>, start: nat): seq<T>
    requires start <= |ops|
  {
    if |ops| == start then []
    else
      var n := |ops| - 1;
      ReadFrom(ops[..n], start) + if ops[n].Ask? then ops[n].read else []
  }

  /** Nothing was forgotten since, and something was just before, unless it is the beginning. */
  ghost predicate SinceForget<T>(ops: seq<HidOp<T>>, start: nat) {
    && start <= |ops| && (start == 0 || ops[start - 1].Forget?)
    && forall i :: start <= i < |ops| ==> ops[i].Ask?
  }

  /** Until a query completes, the array holds all that was read since the last invalidation, failures included. */
  lemma {:induction false} PartialReadsPile<T>(ops: seq<HidOp<T>>, start: nat)
    requires forall i :: 0 <= i < |ops| && ops[i].Ask? ==> !ops[i].complete
    requires SinceForget(ops, start)
    ensures HidRun(ops) == Cache(false, ReadFrom(ops, start))
  {
    if ops != [] {
      var n := |ops| - 1;
      NeverValid(ops[..n]);
      if start < |ops| {
        PartialReadsPile(ops[..n], start);
      }
    }
  }

  lemma {:induction false} NeverValid<T>(ops: seq<HidOp<T>>)
    requires forall i :: 0 <= i < |ops| && ops[i].Ask? ==> !ops[i].complete
    ensures !HidRun(ops).valid
  {
    if ops != [] {
      NeverValid(ops[..|ops| - 1]);
    }
  }

  /** After a complete query nothing is read again, and an invalidation leaves the array empty for good. */
  lemma {:induction false} NeverAskedAgain<T>(ops: seq<HidOp<T>>, later: seq<HidOp<T>>)
    requires HidRun(ops).valid
    ensures HidRun(ops + later) == if Forget in later then Cache(true, []) else HidRun(ops)
  {
    if later == [] {
      assert ops + later == ops;
    } else {
      var n := |later| - 1;
      assert (ops + later)[..|ops + later| - 1] == ops + later[..n];
      assert later == later[..n] + [later[n]];
      NeverAskedAgain(ops, later[..n]);
    }
  }

  /**
   * The first complete query, after any failed ones and followed by anything: the array holds exactly that
   * query's answer if and only if the failed queries since the last invalidation had read nothing and there
   * is no invalidation after it; after an invalidation, if and only if the answer is empty.
   */
  lemma {:induction false} HidHoldsAnswer<T>(
    before: seq<HidOp<T>>, start: nat, answer: seq<T>, later: seq<HidOp<T>>)
    requires forall i :: 0 <= i < |before| && before[i].Ask? ==> !before[i].complete
    requires SinceForget(before, start)
    ensures var c := HidRun((before + [Ask(answer, true)]) + later);
            var piled := ReadFrom(before, start);
            && c.valid
            && c.items == (if Forget in later then [] else piled + answer)
            && (c.items == answer <==> if Forget in later then answer == [] else piled == [])
  {
    var ops := before + [Ask(answer, true)];
    PartialReadsPile(before, start);
    assert ops[..|ops| - 1] == before;
    NeverAskedAgain(ops, later);
    var piled := ReadFrom(before, start);
    if piled == [] {
      assert piled + answer == answer;
    } else {
      assert |piled + answer| > |answer|;
    }
  }
}
