/** What the driver's behaviour guarantees, proved about the pure model in
    `Protocol`: the exact bus traffic of every run (including where a failure
    cuts it short), that blocking and async drivers put the same bytes on the
    bus, and what each discipline does to the cached mode. */
module Properties {
  import opened Types
  import opened Protocol

  // ---------------------------------------------------------------------
  // Counting attempted writes

  /** Planned writes split into two runs succeed exactly when both do. */
  lemma {:induction false} AcceptedSplit(accepts: nat -> bool, m: nat, a: nat, b: nat)
    ensures AllAccepted(accepts, m, a + b) == (AllAccepted(accepts, m, a) && AllAccepted(accepts, m + a, b))
    decreases a
  {
    if a > 0 {
      AcceptedSplit(accepts, m + 1, a - 1, b);
    }
  }

  /** When every planned write succeeds, all of them are attempted. */
  lemma {:induction false} IssuedAll(accepts: nat -> bool, m: nat, n: nat)
    requires AllAccepted(accepts, m, n)
    ensures Issued(accepts, m, n) == n
    decreases n
  {
    if n > 0 {
      IssuedAll(accepts, m + 1, n - 1);
    }
  }

  /** Planned writes split into two runs: the second run is reached only if
      the whole first run succeeds. */
  lemma {:induction false} IssuedSplit(accepts: nat -> bool, m: nat, a: nat, b: nat)
    ensures Issued(accepts, m, a + b)
         == if AllAccepted(accepts, m, a) then a + Issued(accepts, m + a, b) else Issued(accepts, m, a)
    decreases a
  {
    if a > 0 {
      IssuedSplit(accepts, m + 1, a - 1, b);
    }
  }

  /** A run cut short inside its first part attempts writes only there. */
  lemma SplitFailed(accepts: nat -> bool, m: nat, a: nat, b: nat, n: nat)
    requires n == a + b
    requires !AllAccepted(accepts, m, a)
    ensures !AllAccepted(accepts, m, n)
    ensures Issued(accepts, m, n) == Issued(accepts, m, a)
  {
    AcceptedSplit(accepts, m, a, b);
    IssuedSplit(accepts, m, a, b);
  }

  /** A run whose first part succeeds attempts all of it, then continues. */
  lemma SplitAccepted(accepts: nat -> bool, m: nat, a: nat, b: nat, n: nat)
    requires n == a + b
    requires AllAccepted(accepts, m, a)
    ensures Issued(accepts, m, a) == a
    ensures AllAccepted(accepts, m, n) == AllAccepted(accepts, m + a, b)
    ensures Issued(accepts, m, n) == a + Issued(accepts, m + a, b)
  {
    IssuedAll(accepts, m, a);
    AcceptedSplit(accepts, m, a, b);
    IssuedSplit(accepts, m, a, b);
  }

  // ---------------------------------------------------------------------
  // Traffic of single operations

  /** Any operation: the writes it attempts are a prefix of the writes it
      plans, cut just after the first failure, and it succeeds exactly when
      all planned writes succeed. The address never changes. */
  lemma OpTraffic(disc: Discipline, d: DriverState, op: Op, accepts: nat -> bool)
    ensures var s := OpStep(disc, d, op, accepts);
            var t := OpTransactions(d.config.i2cAddr, op);
            && s.after.log == d.log + t[..Issued(accepts, |d.log|, |t|)]
            && s.ok == AllAccepted(accepts, |d.log|, |t|)
            && s.after.config.i2cAddr == d.config.i2cAddr
  {
  }

  // ---------------------------------------------------------------------
  // Traffic of whole runs

  /** Cutting `t0 + t1` inside `t0` cuts `t0` alone. */
  lemma PrefixInFirst(t0: seq<Transaction>, t1: seq<Transaction>, i: nat)
    requires i <= |t0|
    ensures (t0 + t1)[..i] == t0[..i]
  {
  }

  /** Cutting `t0 + t1` past `t0` keeps all of `t0`. */
  lemma PrefixPastFirst(t0: seq<Transaction>, t1: seq<Transaction>, k: nat)
    requires k <= |t1|
    ensures (t0 + t1)[..|t0| + k] == t0 + t1[..k]
  {
    assert (t0 + t1)[..|t0| + k] == t0 + t1[..k];
  }

  /** Concatenation of logs is associative. */
  lemma ConcatAssoc(x: seq<Transaction>, y: seq<Transaction>, z: seq<Transaction>)
    ensures (x + y) + z == x + (y + z)
  {
  }

  /** A run that stopped inside its first operation, with `t0` that
      operation's planned writes and `t1` the rest: its log and outcome,
      written against all the planned writes. */
  lemma StoppedRun(accepts: nat -> bool, log: seq<Transaction>, t0: seq<Transaction>, t1: seq<Transaction>,
                   rlog: seq<Transaction>, rok: bool)
    requires !AllAccepted(accepts, |log|, |t0|)
    requires rlog == log + t0[..Issued(accepts, |log|, |t0|)]
    requires rok == AllAccepted(accepts, |log|, |t0|)
    ensures rlog == log + (t0 + t1)[..Issued(accepts, |log|, |t0 + t1|)]
    ensures rok == AllAccepted(accepts, |log|, |t0 + t1|)
  {
    var i := Issued(accepts, |log|, |t0|);
    SplitFailed(accepts, |log|, |t0|, |t1|, |t0 + t1|);
    PrefixInFirst(t0, t1, i);
  }

  /** A run that went past its first operation (planned writes `t0`, all
      accepted) and then ran the rest (planned writes `t1`) from the log
      `log + t0`: its outcome, written against all the planned writes. */
  lemma ContinuedOk(accepts: nat -> bool, log: seq<Transaction>, t0: seq<Transaction>, t1: seq<Transaction>,
                    rok: bool)
    requires AllAccepted(accepts, |log|, |t0|)
    requires rok == AllAccepted(accepts, |log| + |t0|, |t1|)
    ensures rok == AllAccepted(accepts, |log|, |t0 + t1|)
  {
    SplitAccepted(accepts, |log|, |t0|, |t1|, |t0 + t1|);
  }

  /** The log of such a run, having attempted `k` of the writes of `t1`,
      is the first `|t0| + k` planned writes of `t = t0 + t1`. */
  lemma ContinuedLog(log: seq<Transaction>, t0: seq<Transaction>, t1: seq<Transaction>, t: seq<Transaction>,
                     rlog: seq<Transaction>, k: nat, i: nat)
    requires t == t0 + t1
    requires k <= |t1| && i == |t0| + k
    requires rlog == (log + t0) + t1[..k]
    ensures rlog == log + t[..i]
  {
    PrefixPastFirst(t0, t1, k);
    ConcatAssoc(log, t0, t1[..k]);
  }

  /** A run of operations succeeds exactly when every planned write
      succeeds; this holds for both disciplines. */
  lemma {:induction false} RunOutcome(disc: Discipline, d: DriverState, ops: seq<Op>, accepts: nat -> bool)
    ensures Run(disc, d, ops, accepts).ok == AllAccepted(accepts, |d.log|, |Transactions(d.config.i2cAddr, ops)|)
    decreases |ops|
  {
    if ops != [] {
      var a := d.config.i2cAddr;
      var t0, t1 := OpTransactions(a, ops[0]), Transactions(a, ops[1..]);
      assert Transactions(a, ops) == t0 + t1;
      var s := OpStep(disc, d, ops[0], accepts);
      var r := Run(disc, d, ops, accepts);
      OpTraffic(disc, d, ops[0], accepts);
      if !s.ok {
        assert r == s;
        SplitFailed(accepts, |d.log|, |t0|, |t1|, |t0 + t1|);
      } else {
        assert r == Run(disc, s.after, ops[1..], accepts);
        IssuedAll(accepts, |d.log|, |t0|);
        assert t0[..|t0|] == t0;
        assert |s.after.log| == |d.log| + |t0|;
        assert s.after.config.i2cAddr == a;
        RunOutcome(disc, s.after, ops[1..], accepts);
        ContinuedOk(accepts, d.log, t0, t1, r.ok);
      }
    }
  }

  /** A run of operations stopped by its first failure attempts exactly the
      planned writes up to and including the first failing one; this holds
      for both disciplines. */
  lemma {:induction false} RunLog(disc: Discipline, d: DriverState, ops: seq<Op>, accepts: nat -> bool)
    ensures var t := Transactions(d.config.i2cAddr, ops);
            Run(disc, d, ops, accepts).after.log == d.log + t[..Issued(accepts, |d.log|, |t|)]
    decreases |ops|
  {
    if ops != [] {
      var a := d.config.i2cAddr;
      var t, t0, t1 := Transactions(a, ops), OpTransactions(a, ops[0]), Transactions(a, ops[1..]);
      assert t == t0 + t1;
      var s := OpStep(disc, d, ops[0], accepts);
      var r := Run(disc, d, ops, accepts);
      OpTraffic(disc, d, ops[0], accepts);
      if !s.ok {
        assert r == s;
        StoppedRun(accepts, d.log, t0, t1, r.after.log, r.ok);
      } else {
        assert r == Run(disc, s.after, ops[1..], accepts);
        IssuedAll(accepts, |d.log|, |t0|);
        assert t0[..|t0|] == t0;
        assert s.after.log == d.log + t0;
        assert |s.after.log| == |d.log| + |t0|;
        assert Transactions(s.after.config.i2cAddr, ops[1..]) == t1;
        RunLog(disc, s.after, ops[1..], accepts);
        var k := Issued(accepts, |d.log| + |t0|, |t1|);
        assert r.after.log == (d.log + t0) + t1[..k];
        SplitAccepted(accepts, |d.log|, |t0|, |t1|, |t|);
        ContinuedLog(d.log, t0, t1, t, r.after.log, k, Issued(accepts, |d.log|, |t|));
      }
    }
  }

  /** A run of operations attempts exactly the planned writes up to and
      including the first failure, and succeeds exactly when every planned
      write succeeds; this holds for both disciplines. */
  lemma {:induction false} RunTraffic(disc: Discipline, d: DriverState, ops: seq<Op>, accepts: nat -> bool)
    ensures var r := Run(disc, d, ops, accepts);
            var t := Transactions(d.config.i2cAddr, ops);
            && r.after.log == d.log + t[..Issued(accepts, |d.log|, |t|)]
            && r.ok == AllAccepted(accepts, |d.log|, |t|)
  {
    RunLog(disc, d, ops, accepts);
    RunOutcome(disc, d, ops, accepts);
  }

  /** When every write succeeds, a run issues exactly the planned writes. */
  lemma RunAllAccepted(disc: Discipline, d: DriverState, ops: seq<Op>, accepts: nat -> bool)
    requires AllAccepted(accepts, |d.log|, |Transactions(d.config.i2cAddr, ops)|)
    ensures Run(disc, d, ops, accepts).ok
    ensures Run(disc, d, ops, accepts).after.log == d.log + Transactions(d.config.i2cAddr, ops)
  {
    RunTraffic(disc, d, ops, accepts);
    IssuedAll(accepts, |d.log|, |Transactions(d.config.i2cAddr, ops)|);
  }

  /** Every planned write goes to the given address as a 2-byte frame the
      device decodes. */
  lemma {:induction false} TransactionsFramed(a: I2cAddr, ops: seq<Op>)
    ensures forall i :: 0 <= i < |Transactions(a, ops)| ==>
              var t := Transactions(a, ops)[i];
              t.addr == AddrByte(a) && |t.bytes| == 2 && Decode(t.bytes).Some?
    decreases |ops|
  {
    if ops != [] {
      TransactionsFramed(a, ops[1..]);
      var t0 := OpTransactions(a, ops[0]);
      forall i | 0 <= i < |Transactions(a, ops)|
        ensures var t := Transactions(a, ops)[i];
                t.addr == AddrByte(a) && |t.bytes| == 2 && Decode(t.bytes).Some?
      {
        if i >= |t0| {
          assert Transactions(a, ops)[i] == Transactions(a, ops[1..])[i - |t0|];
        }
      }
    }
  }

  /** Every write a run attempts is one 2-byte frame to the configured
      address. */
  lemma RunFramed(disc: Discipline, d: DriverState, ops: seq<Op>, accepts: nat -> bool)
    ensures var r := Run(disc, d, ops, accepts);
            forall i :: |d.log| <= i < |r.after.log| ==>
              r.after.log[i].addr == AddrByte(d.config.i2cAddr) && |r.after.log[i].bytes| == 2 &&
              Decode(r.after.log[i].bytes).Some?
  {
    var t := Transactions(d.config.i2cAddr, ops);
    RunTraffic(disc, d, ops, accepts);
    TransactionsFramed(d.config.i2cAddr, ops);
    var r := Run(disc, d, ops, accepts);
    var k := Issued(accepts, |d.log|, |t|);
    forall i | |d.log| <= i < |r.after.log|
      ensures r.after.log[i] == t[i - |d.log|]
    {
    }
  }

  // ---------------------------------------------------------------------
  // Blocking and async drivers agree on the wire

  /** Given the same bus history and address, the blocking and the async
      driver issue the same writes and report the same outcome for any
      sequence of operations, whatever their cached modes. */
  lemma SameTraffic(d1: DriverState, d2: DriverState, ops: seq<Op>, accepts: nat -> bool)
    requires d1.log == d2.log && d1.config.i2cAddr == d2.config.i2cAddr
    ensures Run(Blocking, d1, ops, accepts).after.log == Run(Async, d2, ops, accepts).after.log
    ensures Run(Blocking, d1, ops, accepts).ok == Run(Async, d2, ops, accepts).ok
  {
    RunTraffic(Blocking, d1, ops, accepts);
    RunTraffic(Async, d2, ops, accepts);
  }

  /** `blocking_init` and `async_init` yield the same driver state. */
  lemma InitSame(config: Config, log: seq<Transaction>, accepts: nat -> bool)
    ensures InitStep(Blocking, config, log, accepts) == InitStep(Async, config, log, accepts)
    ensures InitStep(Blocking, config, log, accepts).after.config == config
  {
  }

  /** Initialising then running `ops`: both drivers put the same bytes on the
      bus and report the same outcome. */
  lemma SessionSameTraffic(config: Config, log: seq<Transaction>, ops: seq<Op>, accepts: nat -> bool)
    ensures Session(Blocking, config, log, ops, accepts).after.log == Session(Async, config, log, ops, accepts).after.log
    ensures Session(Blocking, config, log, ops, accepts).ok == Session(Async, config, log, ops, accepts).ok
  {
    var s := InitStep(Blocking, config, log, accepts);
    InitSame(config, log, accepts);
    if s.ok {
      SameTraffic(s.after, s.after, ops, accepts);
    }
  }

  // ---------------------------------------------------------------------
  // The cached mode

  /** The async driver never changes its configuration. */
  lemma {:induction false} AsyncKeepsConfig(d: DriverState, ops: seq<Op>, accepts: nat -> bool)
    ensures Run(Async, d, ops, accepts).after.config == d.config
    decreases |ops|
  {
    if ops != [] {
      var s := OpStep(Async, d, ops[0], accepts);
      if s.ok {
        AsyncKeepsConfig(s.after, ops[1..], accepts);
      }
    }
  }

  /** The async driver's `mode()` is the mode it was initialised with, after
      any operations, whatever the bus did. */
  lemma AsyncSessionMode(config: Config, log: seq<Transaction>, ops: seq<Op>, accepts: nat -> bool)
    ensures Session(Async, config, log, ops, accepts).after.config.mode == config.mode
  {
    var s := InitStep(Async, config, log, accepts);
    if s.ok {
      AsyncKeepsConfig(s.after, ops, accepts);
    }
  }

  /** After a successful blocking run the cached mode is `WiperOnly` if some
      operation was a write-and-save, and the mode it started with otherwise. */
  lemma {:induction false} BlockingModeAfterRun(d: DriverState, ops: seq<Op>, accepts: nat -> bool)
    requires Run(Blocking, d, ops, accepts).ok
    ensures Run(Blocking, d, ops, accepts).after.config.mode
         == if SavesAny(ops) then WiperOnly else d.config.mode
    decreases |ops|
  {
    if ops != [] {
      var s := OpStep(Blocking, d, ops[0], accepts);
      BlockingModeAfterRun(s.after, ops[1..], accepts);
      if ops[0].WriteAndSave? {
        assert SavesAny(ops);
        if !SavesAny(ops[1..]) {
          
        }
      } else {
        if SavesAny(ops) {
          var i :| 0 <= i < |ops| && ops[i].WriteAndSave?;
          assert ops[1..][i - 1].WriteAndSave?;
        }
        if SavesAny(ops[1..]) {
          var i :| 0 <= i < |ops[1..]| && ops[1..][i].WriteAndSave?;
          assert ops[i + 1].WriteAndSave?;
        }
      }
    }
  }
}
