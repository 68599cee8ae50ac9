/** A sender that repeats a chunk until it is told that it was taken (acud/userbin.c, acud/net.c). Requests and
    answers may be lost; what the receiver answers decides whether the sender goes on. */
module RosterRetry {
  import opened Bytes
  import opened UserRecord
  import opened Roster
  import opened UserBin

  // ---- Single answers ----

  predicate IsLast(p: Progress, index: u16) {
    p.haveIndex && index == p.lastIndex
  }

  predicate IsNext(p: Progress, index: u16) {
    p.haveIndex ==> index == (p.lastIndex + 1) % 0x1_0000
  }

  /** A chunk is answered Complete when it is the next one and brings the last byte, Ok when it is the next one
      and bytes are still missing or when it is the last one again, and Failed otherwise. */
  lemma VerdictMeaning(p: Progress, index: u16, data: seq<byte>)
    ensures var v := p.Verdict(index, data);
      var total := |p.stream| + |data|;
      && (v == Complete <==> p.active && IsNext(p, index) && total == p.totalSize)
      && (v == Ok <==> p.active && (IsLast(p, index) || (IsNext(p, index) && total < p.totalSize)))
  {
  }

  /** A chunk that was taken and comes again changes nothing. It is answered Ok if and only if bytes are still
      missing: the last chunk of a transfer is refused when it is repeated. */
  lemma RepeatAnswered(p: Progress, index: u16, data: seq<byte>, again: seq<byte>)
    requires p.Accepts(index, data)
    ensures var q := p.After(index, data);
      && q.After(index, again) == q
      && q.Verdict(index, again) == (if |p.stream| + |data| < p.totalSize then Ok else Failed)
  {
  }

  /** In a numbered cut a piece is welcome exactly when it is the next one or, while pieces are missing, the
      one before. */
  lemma PieceAnswered(p: Progress, cut: seq<seq<byte>>, first: u16, k: nat, i: nat)
    requires Numberable(cut) && HasTaken(p, cut, first, k) && i < |cut| && (k == 0 ==> i == 0)
    ensures p.Verdict(Number(first, i), cut[i]) ==
      if k < |cut| && i == k then if k + 1 < |cut| then Ok else Complete
      else if k < |cut| && i + 1 == k then Ok
      else Failed
  {
    OnlyNextPieceTaken(p, cut, first, k, i);
    if k < |cut| {
      NextPiece(cut, k);
      if k > 0 { Numbers(first, i, k - 1); }
    }
  }

  // ---- A sender that repeats ----

  /** What becomes of one attempt to send a chunk. */
  datatype Fate = RequestLost | AnswerLost | Answered

  /** The piece that the sender sends next, and whether an answer has ever been Failed. */
  datatype Exchange = Exchange(p: Progress, next: nat, refused: bool) {

    function Attempt(cut: seq<seq<byte>>, first: u16, fate: Fate): Exchange {
      if next >= |cut| || fate == RequestLost then this
      else
        var index, data := Number(first, next), cut[next];
        var q := p.After(index, data);
        if fate == AnswerLost then this.(p := q)
        else if p.Verdict(index, data) == Failed then Exchange(q, next, true)
        else Exchange(q, next + 1, refused)
    }
  }

  function Attempts(x: Exchange, cut: seq<seq<byte>>, first: u16, fates: seq<Fate>): Exchange
    decreases |fates|
  {
    if fates == [] then x
    else Attempts(x, cut, first, fates[..|fates| - 1]).Attempt(cut, first, fates[|fates| - 1])
  }

  function CountAnswered(fates: seq<Fate>): nat
    decreases |fates|
  {
    if fates == [] then 0
    else CountAnswered(fates[..|fates| - 1]) + if fates[|fates| - 1] == Answered then 1 else 0
  }

  /** The receiver is at most one piece ahead, by an answer that was lost. */
  ghost predicate InStep(x: Exchange, cut: seq<seq<byte>>, first: u16) {
    && x.next <= |cut|
    && (HasTaken(x.p, cut, first, x.next) || (x.next < |cut| && HasTaken(x.p, cut, first, x.next + 1)))
    && (x.refused ==> x.next + 1 == |cut| && HasTaken(x.p, cut, first, |cut|))
  }

  lemma AttemptKeeps(x: Exchange, cut: seq<seq<byte>>, first: u16, fate: Fate)
    requires Numberable(cut) && InStep(x, cut, first)
    ensures var y := x.Attempt(cut, first, fate);
      && InStep(y, cut, first)
      && (fate == Answered && x.next < |cut| ==> y.next == x.next + 1 || y.refused)
      && (y.next == x.next || y.next == x.next + 1) && (x.refused ==> y.refused)
  {
    if x.next < |cut| {
      var k := if HasTaken(x.p, cut, first, x.next) then x.next else x.next + 1;
      PieceAnswered(x.p, cut, first, k, x.next);
      OnlyNextPieceTaken(x.p, cut, first, k, x.next);
      if k == x.next { NextPiece(cut, k); }
    }
  }

  /** However many requests and answers are lost: the stream is never anything but the first pieces, the sender
      is refused only when everything has been taken and just the last answer was lost, and as many answers as
      there are pieces complete the transfer. */
  lemma {:induction false} RetryingDelivers(x: Exchange, cut: seq<seq<byte>>, first: u16, fates: seq<Fate>)
    requires Numberable(cut) && HasTaken(x.p, cut, first, 0) && x.next == 0 && !x.refused
    ensures var y := Attempts(x, cut, first, fates);
      && InStep(y, cut, first)
      && (y.refused || y.next == |cut| || y.next == CountAnswered(fates))
      && (CountAnswered(fates) >= |cut| ==> HasTaken(y.p, cut, first, |cut|) && (y.next == |cut| <==> !y.refused))
    decreases |fates|
  {
    if fates != [] {
      var n := |fates| - 1;
      hide Exchange.Attempt, Numberable;
      RetryingDelivers(x, cut, first, fates[..n]);
      AttemptKeeps(Attempts(x, cut, first, fates[..n]), cut, first, fates[n]);
    }
  }

  /** Once the last answer is lost the sender is refused for ever, although the roster is in. */
  lemma {:induction false} LastAnswerLost(x: Exchange, cut: seq<seq<byte>>, first: u16, fates: seq<Fate>)
    requires Numberable(cut) && HasTaken(x.p, cut, first, |cut|) && x.next + 1 == |cut|
    ensures var y := Attempts(x, cut, first, fates);
      y.p == x.p && y.next == x.next && (y.refused <==> x.refused || CountAnswered(fates) > 0)
    decreases |fates|
  {
    if fates != [] {
      var n := |fates| - 1;
      LastAnswerLost(x, cut, first, fates[..n]);
      hide HasTaken;
      Refuses(x.p, cut, first);
    }
  }

  lemma Refuses(p: Progress, cut: seq<seq<byte>>, first: u16)
    requires Numberable(cut) && HasTaken(p, cut, first, |cut|)
    ensures forall index: u16, data :: p.After(index, data) == p && p.Verdict(index, data) == Failed
  {
  }

  // ---- The receiver under such a sender ----

  /** One piece handed to the class: the next one, or the one that it has just taken. */
  method SendPiece(r: Receiver, cut: seq<seq<byte>>, first: u16, ghost k: nat, i: nat, ghost before: Tables)
    returns (status: Status)
    requires Serving(r, cut, first, k, before) && Numberable(cut) && i < |cut| && (k == i || k == i + 1)
    modifies r, r.rec, r.db
    ensures Serving(r, cut, first, i + 1, before) && r.recordLen == old(r.recordLen)
    ensures status == old(r.State()).Verdict(Number(first, i), cut[i])
    ensures r.State() == old(r.State()).After(Number(first, i), cut[i])
    ensures status == Failed <==> k == i + 1 == |cut|
  {
    PieceAnswered(r.State(), cut, first, k, i);
    hide Numberable, Receiver.Valid, HasTaken, Progress.Verdict, Progress.After, Number;
    ghost var arrivals := [Piece(i)];
    assert arrivals[1..] == [];
    assert Sent(cut, k, arrivals);
    hide Sent, Serving;
    status := ArriveOne(r, cut, first, k, arrivals, Piece(i), before);
  }

  lemma AttemptIs(x: Exchange, cut: seq<seq<byte>>, first: u16, fate: Fate)
    requires x.next < |cut| && fate != RequestLost
    ensures var y := x.Attempt(cut, first, fate);
      var failed := x.p.Verdict(Number(first, x.next), cut[x.next]) == Failed;
      && y.p == x.p.After(Number(first, x.next), cut[x.next])
      && y.next == (if fate == Answered && !failed then x.next + 1 else x.next)
      && y.refused == (x.refused || (fate == Answered && failed))
  {
  }

  /** The class driven by such a sender after an accepted Start. */
  method SendRepeating(r: Receiver, cut: seq<seq<byte>>, first: u16, fates: seq<Fate>)
    returns (next: nat, refused: bool)
    requires r.Valid() && Numberable(cut) && Serving(r, cut, first, 0, r.db.Roster())
    modifies r, r.rec, r.db
    ensures Exchange(r.State(), next, refused) == Attempts(Exchange(old(r.State()), 0, false), cut, first, fates)
    ensures r.Valid() && r.recordLen == old(r.recordLen) >= REC_INFO_LEN
    ensures CountAnswered(fates) >= |cut| ==>
      r.db.Roster() == RosterOf(Concat(cut), r.recordLen) && (next == |cut| <==> !refused)
    ensures next + 1 < |cut| ==> !refused && r.db.Roster() == old(r.db.Roster())
  {
    ghost var x, before, k := Exchange(r.State(), 0, false), r.db.Roster(), 0;
    hide Serving, Exchange.Attempt, Numberable, HasTaken, Progress.After, Progress.Verdict, Receiver.Valid, RosterOf;
    next, refused := 0, false;
    ServingTaken(r, cut, first, 0, before);
    for i := 0 to |fates|
      invariant r.recordLen == old(r.recordLen) && next <= |cut| && (k == next || k == next + 1 <= |cut|)
      invariant Exchange(r.State(), next, refused) == Attempts(x, cut, first, fates[..i])
      invariant Serving(r, cut, first, k, before)
    {
      assert fates[..i + 1][..i] == fates[..i];
      if next < |cut| && fates[i] != RequestLost {
        AttemptIs(Exchange(r.State(), next, refused), cut, first, fates[i]);
        var status := SendPiece(r, cut, first, k, next, before);
        k := next + 1;
        if fates[i] == Answered {
          if status == Failed { refused := true; } else { next := next + 1; }
        }
      } else {
        NoAttempt(Exchange(r.State(), next, refused), cut, first, fates[i]);
      }
    }
    assert fates[..|fates|] == fates;
    RetryingDelivers(x, cut, first, fates);
    ServingTaken(r, cut, first, k, before);
    HowFar(Exchange(r.State(), next, refused), cut, first, k);
  }

  lemma NoAttempt(x: Exchange, cut: seq<seq<byte>>, first: u16, fate: Fate)
    requires x.next >= |cut| || fate == RequestLost
    ensures x.Attempt(cut, first, fate) == x
  {
  }

  lemma ServingTaken(r: Receiver, cut: seq<seq<byte>>, first: u16, k: nat, before: Tables)
    requires Serving(r, cut, first, k, before)
    ensures r.Valid() && r.recordLen >= REC_INFO_LEN && k <= |cut| && HasTaken(r.State(), cut, first, k)
    ensures r.db.Roster() == if k == |cut| then RosterOf(Concat(cut), r.recordLen) else before
  {
  }

  lemma HowFar(x: Exchange, cut: seq<seq<byte>>, first: u16, k: nat)
    requires Numberable(cut) && HasTaken(x.p, cut, first, k) && k <= |cut|
    ensures HasTaken(x.p, cut, first, |cut|) <==> k == |cut|
    ensures InStep(x, cut, first) && x.refused ==> x.next + 1 == |cut|
  {
  }
}
