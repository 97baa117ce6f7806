/** Draining a row of queues in rounds, one element of each nonempty queue per round. */
module RoundRobin {
  import opened Common

  // ----- Whose turn it was

  function Count(turns: seq<nat>, g: nat): nat {
    if turns == [] then 0
    else Count(turns[..|turns| - 1], g) + if turns[|turns| - 1] == g then 1 else 0
  }

  lemma CountNext(turns: seq<nat>, x: nat, g: nat)
    ensures Count(turns + [x], g) == Count(turns, g) + if x == g then 1 else 0
  {
    assert (turns + [x])[..|turns|] == turns;
  }

  /**
    Unless the second queue is used up, the first has been served at most once more if it comes
    earlier, and no more often if it comes later.
  */
  predicate Fair<T>(queues: seq<seq<T>>, turns: seq<nat>) {
    forall g, h :: 0 <= g < |queues| && 0 <= h < |queues| ==>
      Count(turns, g) <= Count(turns, h) + (if g < h then 1 else 0) || Count(turns, h) == |queues[h]|
  }

  /** Fair now and at every earlier moment. */
  predicate AlwaysFair<T>(queues: seq<seq<T>>, turns: seq<nat>) {
    Fair(queues, turns) && (turns != [] ==> AlwaysFair(queues, turns[..|turns| - 1]))
  }

  lemma {:induction false} FairAt<T>(queues: seq<seq<T>>, turns: seq<nat>, k: nat)
    requires AlwaysFair(queues, turns) && k <= |turns|
    ensures Fair(queues, turns[..k])
  {
    if k < |turns| {
      FairAt(queues, turns[..|turns| - 1], k);
      assert turns[..|turns| - 1][..k] == turns[..k];
    } else {
      assert turns[..k] == turns;
    }
  }

  /** Each turn takes the next element of its queue. */
  predicate Draws<T(==)>(queues: seq<seq<T>>, turns: seq<nat>, out: seq<T>) {
    && |out| == |turns|
    && (turns != [] ==>
          var n := |turns| - 1;
          var front, g := turns[..n], turns[n];
          && Draws(queues, front, out[..n])
          && g < |queues| && Count(front, g) < |queues[g]| && out[n] == queues[g][Count(front, g)])
  }

  // ----- Inside a round

  /** Round `j`, with the queues below `g` already visited. */
  predicate InRound<T>(queues: seq<seq<T>>, turns: seq<nat>, j: nat, g: nat) {
    forall h :: 0 <= h < |queues| ==> Count(turns, h) == Min(|queues[h]|, if h < g then j + 1 else j)
  }

  /** In some round, now and at every earlier moment. */
  ghost predicate Levelled<T>(queues: seq<seq<T>>, turns: seq<nat>) {
    (exists j: nat, g: nat :: InRound(queues, turns, j, g)) && (turns != [] ==> Levelled(queues, turns[..|turns| - 1]))
  }

  lemma {:induction false} LevelledIsFair<T>(queues: seq<seq<T>>, turns: seq<nat>)
    requires Levelled(queues, turns)
    ensures AlwaysFair(queues, turns)
  {
    var j: nat, g: nat :| InRound(queues, turns, j, g);
    if turns != [] { LevelledIsFair(queues, turns[..|turns| - 1]); }
  }

  /** What is left of the queues. */
  predicate Left<T(==)>(queues: seq<seq<T>>, turns: seq<nat>, now: seq<seq<T>>) {
    && |now| == |queues|
    && forall h :: 0 <= h < |queues| ==>
         Count(turns, h) <= |queues[h]| && now[h] == queues[h][Count(turns, h)..]
  }

  /** The state of a round-robin drain. */
  ghost predicate Draining<T>(queues: seq<seq<T>>, turns: seq<nat>, out: seq<T>, now: seq<seq<T>>, j: nat, g: nat) {
    && Draws(queues, turns, out) && Levelled(queues, turns)
    && Left(queues, turns, now) && InRound(queues, turns, j, g)
  }

  lemma DrawNext<T>(queues: seq<seq<T>>, turns: seq<nat>, out: seq<T>, now: seq<seq<T>>, g: nat)
    requires Draws(queues, turns, out) && Left(queues, turns, now) && g < |queues| && now[g] != []
    ensures Draws(queues, turns + [g], out + [now[g][0]])
    ensures Left(queues, turns + [g], now[g := now[g][1..]])
  {
    assert (turns + [g])[..|turns|] == turns && (out + [now[g][0]])[..|out|] == out;
    forall h | 0 <= h < |queues|
      ensures Count(turns + [g], h) <= |queues[h]|
      ensures now[g := now[g][1..]][h] == queues[h][Count(turns + [g], h)..]
    {
      CountNext(turns, g, h);
    }
  }

  lemma FairNext<T>(queues: seq<seq<T>>, turns: seq<nat>, j: nat, g: nat)
    requires Levelled(queues, turns) && InRound(queues, turns, j, g) && g < |queues| && j < |queues[g]|
    ensures Levelled(queues, turns + [g]) && InRound(queues, turns + [g], j, g + 1)
  {
    var turns' := turns + [g];
    forall h | 0 <= h < |queues|
      ensures Count(turns', h) == Min(|queues[h]|, if h < g + 1 then j + 1 else j)
    {
      CountNext(turns, g, h);
    }
    assert InRound(queues, turns', j, g + 1);
    assert turns'[..|turns|] == turns;
  }

  /** Taking from queue `g` when it is its turn. */
  lemma TakeNext<T>(queues: seq<seq<T>>, turns: seq<nat>, out: seq<T>, now: seq<seq<T>>, j: nat, g: nat)
    requires Draining(queues, turns, out, now, j, g) && g < |queues| && now[g] != []
    ensures j < |queues[g]|
    ensures Draining(queues, turns + [g], out + [now[g][0]], now[g := now[g][1..]], j, g + 1)
  {
    DrawNext(queues, turns, out, now, g);
    FairNext(queues, turns, j, g);
  }

  /** Passing over queue `g` because it is empty. */
  lemma SkipNext<T>(queues: seq<seq<T>>, turns: seq<nat>, out: seq<T>, now: seq<seq<T>>, j: nat, g: nat)
    requires Draining(queues, turns, out, now, j, g) && g < |queues| && now[g] == []
    ensures |queues[g]| <= j && Draining(queues, turns, out, now, j, g + 1)
  {
  }

  function Longest<T>(queues: seq<seq<T>>): (n: nat)
    ensures forall h :: 0 <= h < |queues| ==> |queues[h]| <= n
  {
    if queues == [] then 0
    else
      var n := Longest(queues[..|queues| - 1]);
      if |queues[|queues| - 1]| > n then |queues[|queues| - 1]| else n
  }

  // ----- The full drain

  lemma Start<T>(queues: seq<seq<T>>)
    ensures Draining(queues, [], [], queues, 0, 0)
  {
    assert InRound(queues, [], 0, 0);
  }

  lemma NextRound<T>(queues: seq<seq<T>>, turns: seq<nat>, out: seq<T>, now: seq<seq<T>>, j: nat, h: nat)
    requires Draining(queues, turns, out, now, j, |queues|) && h < |queues| && j < |queues[h]|
    ensures Draining(queues, turns, out, now, j + 1, 0) && j < Longest(queues)
  {
  }

  lemma LastRound<T>(queues: seq<seq<T>>, turns: seq<nat>, out: seq<T>, now: seq<seq<T>>, j: nat)
    requires Draining(queues, turns, out, now, j, |queues|)
    requires forall h :: 0 <= h < |queues| ==> |queues[h]| <= j
    ensures Draws(queues, turns, out) && AlwaysFair(queues, turns)
    ensures forall h :: 0 <= h < |queues| ==> Count(turns, h) == |queues[h]|
  {
    LevelledIsFair(queues, turns);
  }

  /** One queue's turn. */
  method OneTurn<T(==)>(
    ghost queues: seq<seq<T>>, now0: seq<seq<T>>, out0: seq<T>, ghost turns0: seq<nat>, ghost j: nat, g: nat)
    returns (now: seq<seq<T>>, out: seq<T>, ghost turns: seq<nat>, took: bool)
    requires Draining(queues, turns0, out0, now0, j, g) && g < |now0| == |queues|
    ensures Draining(queues, turns, out, now, j, g + 1) && |now| == |queues|
    ensures took <==> j < |queues[g]|
  {
    now, out, turns, took := now0, out0, turns0, now0[g] != [];
    if took {
      TakeNext(queues, turns, out, now, j, g);
      out := out + [now[g][0]];
      now := now[g := now[g][1..]];
      turns := turns + [g];
    } else {
      SkipNext(queues, turns, out, now, j, g);
    }
  }

  method OneRound<T(==)>(
    ghost queues: seq<seq<T>>, now0: seq<seq<T>>, out0: seq<T>, ghost turns0: seq<nat>, ghost j: nat)
    returns (now: seq<seq<T>>, out: seq<T>, ghost turns: seq<nat>, madeProgress: bool)
    requires Draining(queues, turns0, out0, now0, j, 0) && |now0| == |queues|
    ensures Draining(queues, turns, out, now, j, |queues|) && |now| == |queues|
    ensures madeProgress <==> exists h :: 0 <= h < |queues| && j < |queues[h]|
  {
    now, out, turns, madeProgress := now0, out0, turns0, false;
    for g := 0 to |now0|
      invariant Draining(queues, turns, out, now, j, g) && |now| == |now0|
      invariant madeProgress <==> exists h :: 0 <= h < g && j < |queues[h]|
    {
      var took;
      now, out, turns, took := OneTurn(queues, now, out, turns, j, g);
      madeProgress := madeProgress || took;
    }
  }

  method Interleave<T(==)>(queues: seq<seq<T>>) returns (out: seq<T>, ghost turns: seq<nat>)
    ensures Draws(queues, turns, out) && AlwaysFair(queues, turns)
    ensures forall h :: 0 <= h < |queues| ==> Count(turns, h) == |queues[h]|
    ensures multiset(out) == Bag(queues)
  {
    out, turns := [], [];
    var now := queues;
    Start(queues);
    ghost var j := 0;
    while true
      invariant Draining(queues, turns, out, now, j, 0) && |now| == |queues|
      decreases Longest(queues) - j
    {
      var madeProgress;
      now, out, turns, madeProgress := OneRound(queues, now, out, turns, j);
      if !madeProgress { break; }
      ghost var h :| 0 <= h < |queues| && j < |queues[h]|;
      NextRound(queues, turns, out, now, j, h);
      j := j + 1;
    }
    LastRound(queues, turns, out, now, j);
    DrainIsPermutation(queues, turns, out);
  }

  // ----- A full drain is a permutation

  function Bag<T>(queues: seq<seq<T>>): multiset<T> {
    if queues == [] then multiset{} else Bag(queues[..|queues| - 1]) + multiset(queues[|queues| - 1])
  }

  lemma {:induction false} BagUpdate<T>(queues: seq<seq<T>>, g: nat, x: T)
    requires g < |queues|
    ensures Bag(queues[g := queues[g] + [x]]) == Bag(queues) + multiset{x}
  {
    var n := |queues| - 1;
    var queues' := queues[g := queues[g] + [x]];
    if g == n {
      assert queues'[..n] == queues[..n];
    } else {
      BagUpdate(queues[..n], g, x);
      assert queues'[..n] == queues[..n][g := queues[..n][g] + [x]];
    }
  }

  /** The part of each queue that has been drawn. */
  function Drawn<T>(queues: seq<seq<T>>, turns: seq<nat>): (r: seq<seq<T>>)
    requires forall h :: 0 <= h < |queues| ==> Count(turns, h) <= |queues[h]|
    ensures |r| == |queues| && forall h :: 0 <= h < |r| ==> r[h] == queues[h][..Count(turns, h)]
  {
    seq(|queues|, h requires 0 <= h < |queues| => queues[h][..Count(turns, h)])
  }

  lemma {:induction false} BagOfEmpty<T>(queues: seq<seq<T>>)
    requires forall h :: 0 <= h < |queues| ==> queues[h] == []
    ensures Bag(queues) == multiset{}
  {
    if queues != [] { BagOfEmpty(queues[..|queues| - 1]); }
  }

  lemma {:induction false} DrawsPrefix<T>(queues: seq<seq<T>>, turns: seq<nat>, out: seq<T>, n: nat)
    requires Draws(queues, turns, out) && n <= |turns|
    ensures Draws(queues, turns[..n], out[..n])
  {
    if n < |turns| {
      DrawsPrefix(queues, turns[..|turns| - 1], out[..|turns| - 1], n);
      assert turns[..|turns| - 1][..n] == turns[..n] && out[..|turns| - 1][..n] == out[..n];
    } else {
      assert turns[..n] == turns && out[..n] == out;
    }
  }

  lemma {:induction false} DrawnWithin<T>(queues: seq<seq<T>>, turns: seq<nat>, out: seq<T>, h: nat)
    requires Draws(queues, turns, out) && h < |queues|
    ensures Count(turns, h) <= |queues[h]|
  {
    if turns != [] {
      DrawnWithin(queues, turns[..|turns| - 1], out[..|turns| - 1], h);
    }
  }

  lemma AllDrawnWithin<T>(queues: seq<seq<T>>, turns: seq<nat>, out: seq<T>)
    requires Draws(queues, turns, out)
    ensures forall h :: 0 <= h < |queues| ==> Count(turns, h) <= |queues[h]|
  {
    forall h | 0 <= h < |queues| ensures Count(turns, h) <= |queues[h]| {
      DrawnWithin(queues, turns, out, h);
    }
  }

  lemma DrawnNext<T>(queues: seq<seq<T>>, turns: seq<nat>, g: nat)
    requires g < |queues| && Count(turns, g) < |queues[g]|
    requires forall h :: 0 <= h < |queues| ==> Count(turns, h) <= |queues[h]|
    ensures forall h :: 0 <= h < |queues| ==> Count(turns + [g], h) <= |queues[h]|
    ensures var before := Drawn(queues, turns);
      Drawn(queues, turns + [g]) == before[g := before[g] + [queues[g][Count(turns, g)]]]
  {
    var before := Drawn(queues, turns);
    forall h | 0 <= h < |queues|
      ensures Count(turns + [g], h) == Count(turns, h) + (if h == g then 1 else 0) <= |queues[h]|
    {
      CountNext(turns, g, h);
    }
    var after := before[g := before[g] + [queues[g][Count(turns, g)]]];
    forall h | 0 <= h < |queues| ensures Drawn(queues, turns + [g])[h] == after[h] { }
  }

  lemma {:induction false} DrawsBag<T>(queues: seq<seq<T>>, turns: seq<nat>, out: seq<T>)
    requires Draws(queues, turns, out)
    requires forall h :: 0 <= h < |queues| ==> Count(turns, h) <= |queues[h]|
    ensures multiset(out) == Bag(Drawn(queues, turns))
  {
    if turns == [] {
      BagOfEmpty(Drawn(queues, turns));
    } else {
      var n := |turns| - 1;
      var front, g, x := turns[..n], turns[n], out[n];
      AllDrawnWithin(queues, front, out[..n]);
      DrawsBag(queues, front, out[..n]);
      DrawnNext(queues, front, g);
      assert turns == front + [g];
      BagUpdate(Drawn(queues, front), g, x);
      assert out == out[..n] + [x];
    }
  }

  lemma DrainIsPermutation<T>(queues: seq<seq<T>>, turns: seq<nat>, out: seq<T>)
    requires Draws(queues, turns, out)
    requires forall h :: 0 <= h < |queues| ==> Count(turns, h) == |queues[h]|
    ensures multiset(out) == Bag(queues)
  {
    DrawsBag(queues, turns, out);
    forall h | 0 <= h < |queues| ensures Drawn(queues, turns)[h] == queues[h] { }
    assert Drawn(queues, turns) == queues;
  }
}
