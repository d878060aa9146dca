/** The supervisor's configuration and the run it starts
    (relayclient/relayclient.go). */
module RelayClient {
  import opened Strings
  import opened Backoff

  const SECOND: nat := 1_000_000_000

  /** A configured bound, or its default when none was set. */
  function BoundOr(configured: int, preset: nat): int {
    if configured <= 0 then preset else configured
  }

  class Config {
    const gatewayUrl: string
    const sandbox: string
    const token: string
    var minBackoff: int
    var maxBackoff: int

    constructor (gatewayUrl: string, sandbox: string, token: string, minBackoff: int, maxBackoff: int)
      ensures this.gatewayUrl == gatewayUrl && this.sandbox == sandbox && this.token == token
      ensures this.minBackoff == minBackoff && this.maxBackoff == maxBackoff
    {
      this.gatewayUrl, this.sandbox, this.token := gatewayUrl, sandbox, token;
      this.minBackoff, this.maxBackoff := minBackoff, maxBackoff;
    }

    /** No setting that a session needs is blank. */
    method Check() returns (ok: bool)
      ensures ok <==> !AllSpace(gatewayUrl) && !AllSpace(sandbox) && !AllSpace(token)
    {
      BlankIff(gatewayUrl);
      BlankIff(sandbox);
      BlankIff(token);
      return !(TrimSpace(gatewayUrl) == "" || TrimSpace(sandbox) == "" || TrimSpace(token) == "");
    }

    method Defaults()
      modifies this
      ensures minBackoff == BoundOr(old(minBackoff), SECOND)
      ensures maxBackoff == BoundOr(old(maxBackoff), 30 * SECOND)
    {
      if minBackoff <= 0 {
        minBackoff := SECOND;
      }
      if maxBackoff <= 0 {
        maxBackoff := 30 * SECOND;
      }
    }
  }

  /** The smallest and the largest wait a configuration asks for. */
  function Bounds(cfg: Config): (int, int)
    reads cfg
  {
    (BoundOr(cfg.minBackoff, SECOND), BoundOr(cfg.maxBackoff, 30 * SECOND))
  }

  /** Run: a blank address, sandbox or token is refused before any session. The
      defaults are set on a copy, so the caller's configuration stays as it is. */
  method Run(cfg: Config, sessions: seq<Session>) returns (ok: bool, waits: seq<int>)
    ensures ok <==> !AllSpace(cfg.gatewayUrl) && !AllSpace(cfg.sandbox) && !AllSpace(cfg.token)
    ensures !ok ==> waits == []
    ensures AreWaits(Bounds(cfg).0, Bounds(cfg).1, sessions, waits)
    ensures forall i | 0 <= i < |waits| - 1 :: !sessions[i].waitCancelled
    ensures ok && |waits| < |sessions| ==>
              sessions[|waits|].Cancelled? || (waits != [] && sessions[|waits| - 1].waitCancelled)
  {
    var c := new Config(cfg.gatewayUrl, cfg.sandbox, cfg.token, cfg.minBackoff, cfg.maxBackoff);
    c.Defaults();
    ok := c.Check();
    waits := [];
    if ok {
      waits := Reconnect(c.minBackoff, c.maxBackoff, sessions);
    }
  }

  /** A bound that is set is used, one that is not is a second or half a minute. */
  lemma BoundsMeaning(cfg: Config)
    ensures cfg.minBackoff > 0 ==> Bounds(cfg).0 == cfg.minBackoff
    ensures cfg.maxBackoff > 0 ==> Bounds(cfg).1 == cfg.maxBackoff
    ensures cfg.minBackoff <= 0 ==> Bounds(cfg).0 == 1_000_000_000
    ensures cfg.maxBackoff <= 0 ==> Bounds(cfg).1 == 30_000_000_000
  {}

  /** Without configured bounds the waits are 1, 2, 4, 8 and 16 seconds and then
      30, counted from the start or the last long session. */
  lemma UnsetWaits(cfg: Config, sessions: seq<Session>, i: nat)
    requires cfg.minBackoff <= 0 && cfg.maxBackoff <= 0 && i < |sessions|
    ensures var k := ShortSince(sessions, i);
            WaitAt(Bounds(cfg).0, Bounds(cfg).1, sessions, i) ==
            if k == 0 then 1_000_000_000 else if k == 1 then 2_000_000_000
            else if k == 2 then 4_000_000_000 else if k == 3 then 8_000_000_000
            else if k == 4 then 16_000_000_000 else 30_000_000_000
  {
    BoundsMeaning(cfg);
    WaitsAreCappedPowers(1_000_000_000, 30_000_000_000, sessions, i);
    PowersOfTwo(ShortSince(sessions, i));
  }

  lemma PowersOfTwo(k: nat)
    ensures Pow2(0) == 1 && Pow2(1) == 2 && Pow2(2) == 4 && Pow2(3) == 8 && Pow2(4) == 16
    ensures k >= 5 ==> Pow2(k) >= 32
  {
    assert Pow2(5) == 32;
    if k >= 5 { Pow2Adds(5, k - 5); }
  }
}
