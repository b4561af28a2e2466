/** gusb-device.c: how an emulated device finds the event that answers a request. */
module EventLog {
  import opened Basics

  type Ids = seq<Option<string>>

  /** The first event with this id at or after a position. */
  function FirstMatch(ids: Ids, id: string, from: nat): (at: Option<nat>)
    requires from <= |ids|
    ensures at.Some? ==> from <= at.value < |ids| && ids[at.value] == Some(id) &&
                         forall i :: from <= i < at.value ==> ids[i] != Some(id)
    ensures at.None? ==> forall i :: from <= i < |ids| ==> ids[i] != Some(id)
    decreases |ids| - from
  {
    if from == |ids| then None
    else if ids[from] == Some(id) then Some(from)
    else FirstMatch(ids, id, from + 1)
  }

  /** A scan that stops at a match has found the first one. */
  lemma {:induction false} IsFirst(ids: Ids, id: string, from: nat, at: nat)
    requires from <= at < |ids| && ids[at] == Some(id) && forall i :: from <= i < at ==> ids[i] != Some(id)
    ensures FirstMatch(ids, id, from) == Some(at)
  {
  }

  lemma {:induction false} IsNone(ids: Ids, id: string, from: nat)
    requires from <= |ids| && forall i :: from <= i < |ids| ==> ids[i] != Some(id)
    ensures FirstMatch(ids, id, from) == None
  {
  }

  datatype Found = Found(at: Option<nat>, cursor: nat)

  /** A cursor at or past the end starts over. */
  function Start(ids: Ids, cursor: nat): (start: nat)
    ensures start <= |ids|
  {
    if cursor >= |ids| then 0 else cursor
  }

  /** The next event in the sequence, else any event that matches. */
  function Search(ids: Ids, cursor: nat, id: string): (found: Found)
    ensures found.at.Some? ==> found.at.value < |ids| && ids[found.at.value] == Some(id)
    ensures found.at.None? ==> Some(id) !in ids
  {
    var start := Start(ids, cursor);
    match FirstMatch(ids, id, start)
    case Some(i) => Found(Some(i), i + 1)
    case None =>
      match FirstMatch(ids, id, 0)
      case Some(i) => Found(Some(i), i + 1)
      case None => Found(None, start)
  }

  /** The search is one pass over the log rotated to start at the cursor. */
  lemma {:induction false} SearchIsRotation(ids: Ids, cursor: nat, id: string)
    ensures var found, start := Search(ids, cursor, id), Start(ids, cursor);
            match FirstMatch(ids[start..] + ids[..start], id, 0)
            case Some(k) => found.at == Some(if start + k < |ids| then start + k else start + k - |ids|)
            case None => found.at == None
    ensures Search(ids, cursor, id).at.None? <==> Some(id) !in ids
    ensures Search(ids, cursor, id).cursor ==
            match Search(ids, cursor, id).at case Some(i) => i + 1 case None => if cursor < |ids| then cursor else 0
  {
    var start := Start(ids, cursor);
    var rotated := ids[start..] + ids[..start];
    var found := Search(ids, cursor, id);
    if found.at.Some? {
      var i := found.at.value;
      var k := if i >= start then i - start else i - start + |ids|;
      assert rotated[k] == Some(id);
      assert forall j :: 0 <= j < k ==> rotated[j] == ids[if start + j < |ids| then start + j else start + j - |ids|];
    } else {
      assert forall j :: 0 <= j < |rotated| ==> rotated[j] in ids;
    }
  }

  /** A run of searches: what each one finds. */
  function Asks(ids: Ids, cursor: nat, asked: seq<string>): (answers: seq<Option<nat>>)
    ensures |answers| == |asked|
    decreases asked
  {
    if asked == [] then []
    else
      var found := Search(ids, cursor, asked[0]);
      [found.at] + Asks(ids, found.cursor, asked[1..])
  }

  // ---- the recorded requests asked again, round after round, with others in between ----

  /** Leaving out requests that were never recorded, request k is the one recorded at k mod n. */
  ghost predicate InTurn(ids: Ids, asked: seq<string>, k: nat)
    requires |ids| > 0
  {
    asked == [] ||
    if Some(asked[0]) in ids then Some(asked[0]) == ids[k % |ids|] && InTurn(ids, asked[1..], k + 1)
    else InTurn(ids, asked[1..], k)
  }

  /** Request k gets event k mod n; a request that was never recorded gets nothing. */
  ghost function InOrder(ids: Ids, asked: seq<string>, k: nat): seq<Option<nat>>
    requires |ids| > 0
  {
    if asked == [] then []
    else if Some(asked[0]) in ids then [Some(k % |ids|)] + InOrder(ids, asked[1..], k + 1)
    else [None] + InOrder(ids, asked[1..], k)
  }

  lemma {:induction false} NextInTurn(k: nat, n: nat)
    requires n > 0
    ensures (k + 1) % n == if k % n + 1 == n then 0 else k % n + 1
  {
    var d := (k + 1) / n - k / n;
    assert n * d == k % n + 1 - (k + 1) % n by {
      assert n * d == n * ((k + 1) / n) - n * (k / n);
    }
    TimesAtLeast(n, d);
  }

  lemma {:induction false} TimesAtLeast(n: int, d: int)
    requires n >= 0
    ensures d >= 2 ==> n * d >= 2 * n
    ensures d <= -1 ==> n * d <= -n
    ensures d == 1 ==> n * d == n
    ensures d == 0 ==> n * d == 0
  {
  }

  /** The cursor stands at event k mod n, or at the end in place of the first. */
  ghost predicate AtTurn(ids: Ids, cursor: nat, k: nat)
    requires |ids| > 0
  {
    cursor <= |ids| && (cursor == k % |ids| || (cursor == |ids| && k % |ids| == 0))
  }

  lemma {:induction false} CyclicReplayFrom(ids: Ids, cursor: nat, asked: seq<string>, k: nat)
    requires |ids| > 0 && AtTurn(ids, cursor, k) && InTurn(ids, asked, k)
    ensures Asks(ids, cursor, asked) == InOrder(ids, asked, k)
    decreases asked
  {
    hide FirstMatch;
    if asked != [] {
      var found := Search(ids, cursor, asked[0]);
      if Some(asked[0]) in ids {
        assert found == Found(Some(k % |ids|), k % |ids| + 1);
        NextInTurn(k, |ids|);
        CyclicReplayFrom(ids, found.cursor, asked[1..], k + 1);
      } else {
        SearchIsRotation(ids, cursor, asked[0]);
        CyclicReplayFrom(ids, found.cursor, asked[1..], k);
      }
    }
  }

  /**
   * Asking for the recorded ids in order, any number of times round and with any unrecorded
   * requests in between, replays event k mod n at recorded request k.
   */
  lemma {:induction false} CyclicReplay(ids: Ids, asked: seq<string>)
    requires |ids| > 0 && InTurn(ids, asked, 0)
    ensures Asks(ids, 0, asked) == InOrder(ids, asked, 0)
  {
    CyclicReplayFrom(ids, 0, asked, 0);
  }

  /** One round from the beginning: each id finds its own event. */
  lemma {:induction false} OneRound(ids: Ids, asked: seq<string>, k: nat)
    requires |asked| == |ids| && k <= |ids| && forall i :: 0 <= i < |ids| ==> ids[i] == Some(asked[i])
    ensures forall i :: k <= i < |ids| ==> Asks(ids, k, asked[k..])[i - k] == Some(i)
    decreases |ids| - k
  {
    if k < |ids| {
      var rest := asked[k + 1..];
      IsFirst(ids, asked[k], k, k);
      assert asked[k..][1..] == rest;
      assert Asks(ids, k, asked[k..]) == [Some(k)] + Asks(ids, k + 1, rest);
      OneRound(ids, asked, k + 1);
    }
  }

  // ---- one id asked as often as it was recorded ----

  /** How many events below a bound have the id. */
  ghost function Count(ids: Ids, id: string, bound: nat): nat
    requires bound <= |ids|
  {
    if bound == 0 then 0
    else Count(ids, id, bound - 1) + if ids[bound - 1] == Some(id) then 1 else 0
  }

  lemma {:induction false} CountMonotone(ids: Ids, id: string, low: nat, high: nat)
    requires low <= high <= |ids|
    ensures Count(ids, id, low) <= Count(ids, id, high)
    ensures (forall p :: low <= p < high ==> ids[p] != Some(id)) ==> Count(ids, id, low) == Count(ids, id, high)
    decreases high
  {
    if low < high {
      CountMonotone(ids, id, low, high - 1);
    }
  }

  lemma {:induction false} CountGrows(ids: Ids, id: string, p: nat, q: nat)
    requires p < q <= |ids| && ids[p] == Some(id)
    ensures Count(ids, id, p) < Count(ids, id, q)
  {
    CountMonotone(ids, id, p + 1, q);
  }

  /** An event with the id is told apart from the others by how many precede it. */
  lemma {:induction false} CountIdentifies(ids: Ids, id: string, p: nat, q: nat)
    requires p < |ids| && q < |ids| && ids[p] == ids[q] == Some(id)
    ensures Count(ids, id, p) < Count(ids, id, |ids|)
    ensures Count(ids, id, p) == Count(ids, id, q) ==> p == q
  {
    hide Count;
    CountGrows(ids, id, p, |ids|);
    if p < q {
      CountGrows(ids, id, p, q);
    } else if q < p {
      CountGrows(ids, id, q, p);
    }
  }

  /** How many matches stand before the cursor. */
  ghost function Rank(ids: Ids, id: string, cursor: nat): nat {
    Count(ids, id, if cursor <= |ids| then cursor else |ids|)
  }

  /** The match with number r, where the numbers start over after the last. */
  ghost predicate IsMatch(ids: Ids, id: string, p: nat, r: nat) {
    p < |ids| && ids[p] == Some(id) &&
    Count(ids, id, p) == if r < Count(ids, id, |ids|) then r else r - Count(ids, id, |ids|)
  }

  /** A search returns the match whose number is the rank of the cursor. */
  lemma {:induction false} SearchByRank(ids: Ids, id: string, cursor: nat)
    requires Count(ids, id, |ids|) > 0
    ensures var r, found := Rank(ids, id, cursor), Search(ids, cursor, id);
            && r <= Count(ids, id, |ids|)
            && found.at.Some? && IsMatch(ids, id, found.at.value, r)
            && Rank(ids, id, found.cursor) == Count(ids, id, found.at.value) + 1
  {
    var start, found := Start(ids, cursor), Search(ids, cursor, id);
    CountMonotone(ids, id, start, |ids|);
    CountMonotone(ids, id, 0, |ids|);
    var next := FirstMatch(ids, id, start);
    if next.Some? {
      CountMonotone(ids, id, start, next.value);
      CountIdentifies(ids, id, next.value, next.value);
    } else {
      CountMonotone(ids, id, 0, found.at.value);
    }
  }

  ghost function Repeat(id: string, count: nat): (r: seq<string>)
    ensures |r| == count
  {
    if count == 0 then [] else [id] + Repeat(id, count - 1)
  }

  lemma {:induction false} MatchesInTurn(ids: Ids, id: string, cursor: nat, count: nat, i: nat)
    requires i < count <= Count(ids, id, |ids|)
    ensures var answer := Asks(ids, cursor, Repeat(id, count))[i];
            answer.Some? && IsMatch(ids, id, answer.value, Rank(ids, id, cursor) + i)
    decreases count
  {
    SearchByRank(ids, id, cursor);
    var found := Search(ids, cursor, id);
    assert Asks(ids, cursor, Repeat(id, count)) == [found.at] + Asks(ids, found.cursor, Repeat(id, count - 1));
    if i > 0 {
      MatchesInTurn(ids, id, found.cursor, count - 1, i - 1);
      hide Search, Asks, Rank, Count;
    }
  }

  /**
   * As many requests for an id as it has events, from any cursor: no event is returned twice,
   * and every event with the id is returned.
   */
  lemma {:induction false} EachMatchOnce(ids: Ids, id: string, cursor: nat)
    ensures var count := Count(ids, id, |ids|);
            var answers := Asks(ids, cursor, Repeat(id, count));
            && Distinct(answers)
            && forall p: nat :: p < |ids| && ids[p] == Some(id) ==> Some(p) in answers
  {
    var count := Count(ids, id, |ids|);
    var answers := Asks(ids, cursor, Repeat(id, count));
    var r := Rank(ids, id, cursor);
    if count > 0 {
      SearchByRank(ids, id, cursor);
    }
    hide Asks, Rank, Search, Repeat;
    forall i | 0 <= i < count
      ensures answers[i].Some? && IsMatch(ids, id, answers[i].value, r + i)
    {
      MatchesInTurn(ids, id, cursor, count, i);
    }
    hide Count;
    assert Distinct(answers);
    forall p: nat | p < |ids| && ids[p] == Some(id) ensures Some(p) in answers {
      CountIdentifies(ids, id, p, p);
      var m: int := Count(ids, id, p);
      var i: int := if m >= r then m - r else m - r + count;
      CountIdentifies(ids, id, p, answers[i].value);
    }
  }
}
