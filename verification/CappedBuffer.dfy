/** The bounded capture of a relay job's output (internal/app/agent/run.go). */
module CappedBuffers {
  import opened Base64

  const MAX_JOB_OUTPUT_BYTES: nat := 4 * 1024 * 1024

  /** "\n…[truncated]\n" in UTF-8. */
  const MARKER: Bytes := [10, 226, 128, 166, 91, 116, 114, 117, 110, 99, 97, 116, 101, 100, 93, 10]

  /** All bytes written, in order. */
  function Concat(writes: seq<Bytes>): Bytes {
    if writes == [] then [] else Concat(writes[..|writes| - 1]) + writes[|writes| - 1]
  }

  function TotalAt(writes: seq<Bytes>, i: nat): nat
    requires i <= |writes|
  {
    |Concat(writes[..i])|
  }

  /** Some single write began below the cap and ended above it. */
  ghost predicate Straddled(writes: seq<Bytes>, max: int) {
    exists i: nat :: i < |writes| && TotalAt(writes, i) < max < TotalAt(writes, i + 1)
  }

  function Cut(total: Bytes, max: nat): Bytes {
    if |total| <= max then total else total[..max]
  }

  /** What the buffer holds after any sequence of writes. */
  ghost function Captured(writes: seq<Bytes>, max: int): Bytes {
    if max <= 0 then Concat(writes)
    else Cut(Concat(writes), max) + (if Straddled(writes, max) then MARKER else [])
  }

  lemma StraddledBy(writes: seq<Bytes>, p: Bytes, max: int)
    ensures Concat(writes + [p]) == Concat(writes) + p
    ensures Straddled(writes + [p], max) <==>
            Straddled(writes, max) || |Concat(writes)| < max < |Concat(writes)| + |p|
  {
    var all := writes + [p];
    assert all[..|writes|] == writes;
    assert all[..|all|] == all;
    assert forall i | 0 <= i <= |writes| :: all[..i] == writes[..i];
    assert forall i: nat | i <= |writes| :: TotalAt(all, i) == TotalAt(writes, i);
    assert writes[..|writes|] == writes;
    if Straddled(writes, max) {
      var i: nat :| i < |writes| && TotalAt(writes, i) < max < TotalAt(writes, i + 1);
      assert TotalAt(all, i) < max < TotalAt(all, i + 1);
    }
    if |Concat(writes)| < max < |Concat(writes)| + |p| {
      assert TotalAt(all, |writes|) < max < TotalAt(all, |writes| + 1);
    }
  }

  class CappedBuffer {
    const max: int
    var buf: Bytes
    var n: nat
    ghost var writes: seq<Bytes>

    ghost predicate Valid()
      reads this
    {
      && buf == Captured(writes, max)
      && n == if max <= 0 then 0 else |Cut(Concat(writes), max)|
    }

    constructor (max: int)
      ensures Valid() && this.max == max && writes == []
    {
      this.max := max;
      buf, n, writes := [], 0, [];
    }

    /** Every write reports its whole length, whatever was kept of it. */
    method Write(p: Bytes) returns (reported: nat)
      requires Valid()
      modifies this
      ensures Valid() && writes == old(writes) + [p] && reported == |p|
    {
      StraddledBy(writes, p, max);
      ghost var before := Concat(writes);
      writes := writes + [p];
      if max <= 0 {
        buf := buf + p;
        return |p|;
      }
      if n >= max {
        assert Cut(before + p, max) == Cut(before, max);
        return |p|;
      }
      var remain := max - n;
      if |p| > remain {
        assert Cut(before + p, max) == before + p[..remain];
        NotYetStraddled(old(writes), max);
        buf := buf + p[..remain];
        n := max;
        buf := buf + MARKER;
        return |p|;
      }
      NotYetStraddled(old(writes), max);
      buf := buf + p;
      n := n + |p|;
      return |p|;
    }

    method String() returns (s: Bytes)
      ensures s == buf
    {
      s := buf;
    }
  }

  lemma {:induction false} TotalGrows(writes: seq<Bytes>, i: nat, j: nat)
    requires i <= j <= |writes|
    ensures TotalAt(writes, i) <= TotalAt(writes, j)
  {
    if i < j {
      TotalGrows(writes, i, j - 1);
      assert writes[..j][..j - 1] == writes[..j - 1];
    }
  }

  /** As long as the total is below the cap, no write has crossed it. */
  lemma NotYetStraddled(writes: seq<Bytes>, max: int)
    requires |Concat(writes)| < max
    ensures !Straddled(writes, max)
  {
    assert writes[..|writes|] == writes;
    forall i: nat | i <= |writes| ensures TotalAt(writes, i) < max {
      TotalGrows(writes, i, |writes|);
    }
  }

  lemma {:induction false} CrossingWrite(writes: seq<Bytes>, max: nat, n: nat) returns (i: nat)
    requires max > 0 && n <= |writes| && TotalAt(writes, n) > max
    ensures i < n && TotalAt(writes, i) <= max < TotalAt(writes, i + 1)
  {
    assert writes[..0] == [];
    if TotalAt(writes, n - 1) <= max {
      i := n - 1;
    } else {
      i := CrossingWrite(writes, max, n - 1);
    }
  }

  /** Lost output is marked exactly when no boundary between two writes falls on
      the cap; when one does, output is dropped without a trace. */
  lemma LossMarkedIff(writes: seq<Bytes>, max: nat)
    requires max > 0 && |Concat(writes)| > max
    ensures Straddled(writes, max) <==> forall i: nat | i <= |writes| :: TotalAt(writes, i) != max
  {
    assert writes[..|writes|] == writes;
    var i := CrossingWrite(writes, max, |writes|);
    if exists b: nat :: b <= |writes| && TotalAt(writes, b) == max {
      var b: nat :| b <= |writes| && TotalAt(writes, b) == max;
      forall j: nat | j < |writes| ensures !(TotalAt(writes, j) < max < TotalAt(writes, j + 1)) {
        if j < b { TotalGrows(writes, j + 1, b); } else { TotalGrows(writes, b, j); }
      }
    }
  }

  /** Two bytes written one at a time into room for one: the second is lost and
      nothing says so, while in one write it is lost and marked. */
  lemma BoundaryHidesLoss(a: Byte, b: Byte)
    ensures Captured([[a], [b]], 1) == [a]
    ensures Captured([[a, b]], 1) == [a] + MARKER
  {
    var split, whole: seq<Bytes> := [[a], [b]], [[a, b]];
    assert split[..0] == [] && split[..1] == [[a]] && split[..2] == split;
    assert whole[..0] == [] && whole[..1] == whole;
    assert Concat([[a]]) == [a] && Concat(split) == [a, b] && Concat(whole) == [a, b];
    assert TotalAt(split, 0) == 0 && TotalAt(split, 1) == 1 && TotalAt(split, 2) == 2;
    assert TotalAt(whole, 0) < 1 < TotalAt(whole, 1);
  }

  function Ascii(s: string): Bytes
    requires forall i | 0 <= i < |s| :: s[i] as int < 128
  {
    seq(|s|, i requires 0 <= i < |s| => s[i] as int)
  }

  /** The marker: a new line, U+2026 in its three bytes of UTF-8, the bracketed
      word and a new line. */
  lemma MarkerText()
    ensures MARKER == Ascii("\n") + [0xE2, 0x80, 0xA6] + Ascii("[truncated]\n")
  {}

  /** The capture never exceeds a cap by more than the marker; without a cap or
      within it, it is everything written, beyond it the first bytes up to the cap and
      perhaps the marker. */
  lemma CaptureBounded(writes: seq<Bytes>, max: int)
    ensures |MARKER| == 16
    ensures max <= 0 || |Concat(writes)| <= max ==> Captured(writes, max) == Concat(writes)
    ensures max > 0 ==> |Captured(writes, max)| <= max + 16
    ensures 0 < max < |Concat(writes)| ==>
              || Captured(writes, max) == Concat(writes)[..max]
              || Captured(writes, max) == Concat(writes)[..max] + MARKER
  {
    if 0 < max && |Concat(writes)| <= max {
      assert writes[..|writes|] == writes;
      forall i: nat | i <= |writes| ensures TotalAt(writes, i) <= max {
        TotalGrows(writes, i, |writes|);
      }
    }
  }

  datatype Outcome = Succeeded | ExitError(code: int) | OtherError(text: Bytes)

  /** runJob, given the chunks the command writes and how it ends. */
  method RunJob(argv: seq<string>, emptyArgv: Bytes, chunks: seq<Bytes>, outcome: Outcome)
    returns (output: Bytes, code: int)
    ensures argv == [] ==> output == emptyArgv && code == 1
    ensures argv != [] ==>
              && output == Captured(chunks + (if outcome.OtherError? then [outcome.text] else []), 4_194_304)
              && code == match outcome case Succeeded => 0 case ExitError(c) => c case OtherError(_) => 1
  {
    if argv == [] {
      return emptyArgv, 1;
    }
    var buf := new CappedBuffer(MAX_JOB_OUTPUT_BYTES);
    for i := 0 to |chunks|
      invariant buf.Valid() && buf.writes == chunks[..i] && fresh(buf)
    {
      var _ := buf.Write(chunks[i]);
      assert chunks[..i] + [chunks[i]] == chunks[..i + 1];
    }
    assert chunks[..|chunks|] == chunks && chunks + [] == chunks;
    code := 0;
    if outcome.ExitError? {
      code := outcome.code;
    } else if outcome.OtherError? {
      code := 1;
      var _ := buf.Write(outcome.text);
    }
    output := buf.String();
  }
}
