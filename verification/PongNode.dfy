/** The pong node (pong_mode.cpp): it answers every ping with its echo and ignores everything else. */
module PongNode {
  import opened PingNode
  import opened Rounding
  import opened Wire

  predicate IsOdd(m: Uks) { m.seqNo % 2 == 1 }

  /** The answers to some deliveries, in order. */
  function Answers(heard: seq<Uks>): seq<Uks> {
    if heard == [] then []
    else
      var n := |heard| - 1;
      Answers(heard[..n]) + if IsOdd(heard[n]) then [Echo(heard[n])] else []
  }

  class PongMode {
    var roundtrips: nat
    var lastCnt: nat
    /** Everything delivered to this node, and everything it handed to the middleware. */
    ghost var heard: seq<Uks>
    ghost var published: seq<Uks>

    ghost predicate Valid()
      reads this
    {
      published == Answers(heard) && roundtrips == |published| && lastCnt <= roundtrips
    }

    constructor ()
      ensures Valid() && heard == [] && lastCnt == 0
    {
      roundtrips, lastCnt, heard, published := 0, 0, [], [];
    }

    method Handle(msg: Uks)
      requires Valid()
      modifies this
      ensures Valid() && heard == old(heard) + [msg] && lastCnt == old(lastCnt)
    {
      heard := heard + [msg];
      assert heard[..|heard| - 1] == old(heard);
      if msg.seqNo % 2 == 0 {
        return;
      }
      var out := Uks(MaskLowBit(msg.seqNo), msg.stamp, msg.baggage);
      published := published + [out];
      roundtrips := roundtrips + 1;
    }

    /** The reported round trips per second; 0 stands for printing nothing. */
    method Tick(dt: real) returns (rate: nat)
      requires Valid()
      modifies this`lastCnt
      ensures Valid()
      ensures if dt <= 0.0 then rate == 0 && lastCnt == old(lastCnt)
              else RoundsTo(rate, (roundtrips - old(lastCnt)) as real, dt) && lastCnt == roundtrips
    {
      rate := 0;
      if dt > 0.0 {
        var cnt := roundtrips;
        var delta := cnt - lastCnt;
        lastCnt := cnt;
        rate := PerSecond(delta, dt);
        PerSecondRounds(delta, dt);
      }
    }
  }

  /** Every answer is even, keeps the stamp and the baggage of the ping it answers, and there are no more
      answers than deliveries. */
  lemma {:induction false} AnswersAreEchoes(heard: seq<Uks>)
    ensures |Answers(heard)| <= |heard|
    ensures forall m :: m in Answers(heard) ==>
      !IsOdd(m) && exists i :: 0 <= i < |heard| && IsOdd(heard[i]) && m == Echo(heard[i])
  {
    if heard != [] {
      var n := |heard| - 1;
      AnswersAreEchoes(heard[..n]);
      forall m | m in Answers(heard)
        ensures !IsOdd(m) && exists i :: 0 <= i < |heard| && IsOdd(heard[i]) && m == Echo(heard[i])
      {
        if m in Answers(heard[..n]) {
          var i :| 0 <= i < n && IsOdd(heard[..n][i]) && m == Echo(heard[..n][i]);
          assert heard[i] == heard[..n][i];
        } else {
          assert m == Echo(heard[n]);
        }
      }
    }
  }

  /** Pongs are never answered, so pong nodes cannot keep each other busy. */
  lemma {:induction false} PongsGoUnanswered(pongs: seq<Uks>)
    requires forall m :: m in pongs ==> !IsOdd(m)
    ensures Answers(pongs) == []
  {
    if pongs != [] {
      var n := |pongs| - 1;
      assert pongs[n] in pongs && forall m :: m in pongs[..n] ==> m in pongs;
      PongsGoUnanswered(pongs[..n]);
    }
  }

  lemma NoEchoOfEcho(heard: seq<Uks>)
    ensures Answers(Answers(heard)) == []
  {
    AnswersAreEchoes(heard);
    PongsGoUnanswered(Answers(heard));
  }
}
