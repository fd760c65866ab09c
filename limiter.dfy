/** The connection rate limiter: a table from client address to the number of connections
    admitted from it in the current window. An admission is refused once the address has
    more than `MaxAttempts` admissions; otherwise its count goes up by one. A refused attempt
    leaves the table as it was. Clearing the window empties the table. */
module Limiter {

  type Ip = string

  /** Refusal starts when the stored count is strictly above this. */
  const MaxAttempts: nat := 100

  const TooManyAttempts := "Too many connection attempts"

  /** The stored count, or 0 for an address not in the table (`get(ip) || 0`). */
  function Count(attempts: map<Ip, nat>, ip: Ip): nat {
    if ip in attempts then attempts[ip] else 0
  }

  predicate Allows(attempts: map<Ip, nat>, ip: Ip) {
    Count(attempts, ip) <= MaxAttempts
  }

  /** The table after one connection attempt from `ip`. */
  function Step(attempts: map<Ip, nat>, ip: Ip): (r: map<Ip, nat>)
    ensures Allows(attempts, ip) ==> Count(r, ip) == Count(attempts, ip) + 1
    ensures !Allows(attempts, ip) ==> r == attempts
    ensures forall other :: other != ip ==> Count(r, other) == Count(attempts, other)
    ensures forall other :: other in r ==> other in attempts || other == ip
  {
    if Allows(attempts, ip) then attempts[ip := Count(attempts, ip) + 1] else attempts
  }

  /** The table after a series of attempts within one window. */
  function Run(attempts: map<Ip, nat>, ips: seq<Ip>): map<Ip, nat>
    decreases |ips|
  {
    if ips == [] then attempts else Run(Step(attempts, ips[0]), ips[1..])
  }

  /** How many of the attempts in `ips` that come from `ip` are admitted. */
  function Admissions(attempts: map<Ip, nat>, ips: seq<Ip>, ip: Ip): nat
    decreases |ips|
  {
    if ips == [] then 0
    else
      (if ips[0] == ip && Allows(attempts, ip) then 1 else 0)
      + Admissions(Step(attempts, ips[0]), ips[1..], ip)
  }

  /** `n` attempts in a row from `ip`. */
  function Repeat(ip: Ip, n: nat): (r: seq<Ip>)
    ensures |r| == n
  {
    if n == 0 then [] else [ip] + Repeat(ip, n - 1)
  }

  function Min(a: int, b: int): int {
    if a <= b then a else b
  }

  /** The count of an address is exactly the number of its admissions in the window, and
      it never goes above MaxAttempts + 1. */
  lemma {:induction false} RunCount(attempts: map<Ip, nat>, ips: seq<Ip>, ip: Ip)
    requires Count(attempts, ip) <= MaxAttempts + 1
    ensures Count(Run(attempts, ips), ip) == Count(attempts, ip) + Admissions(attempts, ips, ip)
    ensures Count(Run(attempts, ips), ip) <= MaxAttempts + 1
    decreases |ips|
  {
    if ips != [] {
      RunCount(Step(attempts, ips[0]), ips[1..], ip);
    }
  }

  /** Starting from a cleared window, no address is admitted more than MaxAttempts + 1 times,
      whatever the interleaving of attempts from other addresses. */
  lemma WindowBound(ips: seq<Ip>, ip: Ip)
    ensures Admissions(map[], ips, ip) <= MaxAttempts + 1
  {
    RunCount(map[], ips, ip);
  }

  /** Once an address is refused, it stays refused until the window is cleared. */
  lemma {:induction false} RefusalPersists(attempts: map<Ip, nat>, ips: seq<Ip>, ip: Ip)
    requires !Allows(attempts, ip)
    ensures Admissions(attempts, ips, ip) == 0
    ensures Count(Run(attempts, ips), ip) == Count(attempts, ip)
    decreases |ips|
  {
    if ips != [] {
      RefusalPersists(Step(attempts, ips[0]), ips[1..], ip);
    }
  }

  /** Of `n` consecutive attempts from one address, exactly the first ones up to the
      remaining allowance are admitted: the bound is reached, not just respected. */
  lemma {:induction false} BurstAdmissions(attempts: map<Ip, nat>, ip: Ip, n: nat)
    requires Count(attempts, ip) <= MaxAttempts + 1
    ensures Admissions(attempts, Repeat(ip, n), ip) == Min(n, MaxAttempts + 1 - Count(attempts, ip))
    decreases n
  {
    if n > 0 {
      var ips := Repeat(ip, n);
      assert ips[0] == ip && ips[1..] == Repeat(ip, n - 1);
      if Allows(attempts, ip) {
        BurstAdmissions(Step(attempts, ip), ip, n - 1);
      } else {
        RefusalPersists(attempts, ips[1..], ip);
      }
    }
  }

}
