/** Scheduler settings after defaulting. */
module Settings {

  const SECOND: int := 1_000_000_000
  const MINUTE: int := 60 * SECOND

  datatype Config = Config(
    queueSize: int,
    maxGlobal: int,
    maxPerVendor: int,
    maxPerGroup: int,
    maxPerSite: int,
    maxAttempts: int,
    backoffInitial: int,
    backoffMax: int,
    circuitThreshold: int,
    circuitOpenFor: int,
    leaseTTL: int,
    renewInterval: int)

  /** What every running manager can rely on. */
  predicate Normal(c: Config) {
    && c.queueSize >= 1
    && c.maxGlobal >= 1 && c.maxPerVendor >= 1 && c.maxPerGroup >= 1 && c.maxPerSite >= 1
    && c.maxAttempts >= 1
    && c.backoffInitial >= 1 && c.backoffMax >= 1
    && c.circuitThreshold >= 1 && c.circuitOpenFor >= 1
    && c.leaseTTL >= 1 && c.renewInterval >= 1
  }

  function Or(value: int, fallback: int): int {
    if value <= 0 then fallback else value
  }

  /** Defaulting accepts anything, yields a normal configuration and leaves a normal one alone. */
  function Normalize(c: Config): (n: Config)
    ensures Normal(n)
    ensures Normal(c) ==> n == c
  {
    var global := Or(c.maxGlobal, 1);
    var ttl := Or(c.leaseTTL, 15 * MINUTE);
    Config(
      Or(c.queueSize, 10000),
      global,
      Or(c.maxPerVendor, global),
      Or(c.maxPerGroup, global),
      Or(c.maxPerSite, global),
      Or(c.maxAttempts, 1),
      Or(c.backoffInitial, SECOND),
      Or(c.backoffMax, MINUTE),
      Or(c.circuitThreshold, 5),
      Or(c.circuitOpenFor, 30 * MINUTE),
      ttl,
      if c.renewInterval <= 0 then Or(ttl / 3, MINUTE) else c.renewInterval)
  }

  /** Each setting given is kept. */
  lemma GivenKept(c: Config)
    ensures var n := Normalize(c);
      && (c.queueSize > 0 ==> n.queueSize == c.queueSize) && (c.maxGlobal > 0 ==> n.maxGlobal == c.maxGlobal)
      && (c.maxPerVendor > 0 ==> n.maxPerVendor == c.maxPerVendor)
      && (c.maxPerGroup > 0 ==> n.maxPerGroup == c.maxPerGroup) && (c.maxPerSite > 0 ==> n.maxPerSite == c.maxPerSite)
      && (c.maxAttempts > 0 ==> n.maxAttempts == c.maxAttempts)
      && (c.backoffInitial > 0 ==> n.backoffInitial == c.backoffInitial)
      && (c.backoffMax > 0 ==> n.backoffMax == c.backoffMax)
      && (c.circuitThreshold > 0 ==> n.circuitThreshold == c.circuitThreshold)
      && (c.circuitOpenFor > 0 ==> n.circuitOpenFor == c.circuitOpenFor)
      && (c.leaseTTL > 0 ==> n.leaseTTL == c.leaseTTL) && (c.renewInterval > 0 ==> n.renewInterval == c.renewInterval)
  {
  }

  /** And each setting that is not given has its default: caps follow the global one, renewal a third of the
      lease period. */
  lemma DefaultsTaken(c: Config)
    ensures var n := Normalize(c);
      && (c.queueSize <= 0 ==> n.queueSize == 10000) && (c.maxGlobal <= 0 ==> n.maxGlobal == 1)
      && (c.maxPerVendor <= 0 ==> n.maxPerVendor == n.maxGlobal)
      && (c.maxPerGroup <= 0 ==> n.maxPerGroup == n.maxGlobal) && (c.maxPerSite <= 0 ==> n.maxPerSite == n.maxGlobal)
      && (c.maxAttempts <= 0 ==> n.maxAttempts == 1)
      && (c.backoffInitial <= 0 ==> n.backoffInitial == SECOND) && (c.backoffMax <= 0 ==> n.backoffMax == 60 * SECOND)
      && (c.circuitThreshold <= 0 ==> n.circuitThreshold == 5)
      && (c.circuitOpenFor <= 0 ==> n.circuitOpenFor == 1800 * SECOND)
      && (c.leaseTTL <= 0 ==> n.leaseTTL == 900 * SECOND)
      && (c.renewInterval <= 0 ==> n.renewInterval == if n.leaseTTL >= 3 then n.leaseTTL / 3 else 60 * SECOND)
  {
  }
}
