/** The session-id counter: a 32-bit word that skips two reserved values. */
module SessionIds {
  const WORD := 0x1_0000_0000
  const RESERVED := 0xFFFF_FFFF
  const PERIOD := WORD - 2

  /** The counter after one more id, which is that id. */
  function Next(counter: int): int {
    if (counter + 1) % WORD == RESERVED then 1 else (counter + 1) % WORD
  }

  /** The n-th id that is generated, counted from one; the counter starts at one. */
  function Id(n: nat): int {
    if n == 0 then 1 else Next(Id(n - 1))
  }

  lemma {:induction false} IdInClosedForm(n: nat)
    ensures Id(n) == 1 + n % PERIOD
  {
    if n > 0 {
      IdInClosedForm(n - 1);
      OneFurther(n - 1);
    }
  }

  lemma OneFurther(n: nat)
    ensures (n + 1) % PERIOD == if n % PERIOD == PERIOD - 1 then 0 else n % PERIOD + 1
  {
    assert n == PERIOD * (n / PERIOD) + n % PERIOD;
    if n % PERIOD == PERIOD - 1 {
      Remainder(n + 1, n / PERIOD + 1, 0);
    } else {
      Remainder(n + 1, n / PERIOD, n % PERIOD + 1);
    }
  }

  lemma Remainder(n: int, q: int, r: int)
    requires n == PERIOD * q + r && 0 <= r < PERIOD
    ensures n % PERIOD == r
  {
  }

  /** Neither reserved value is ever given out. */
  lemma NeverReserved(n: nat)
    ensures Id(n) != 0 && Id(n) != RESERVED && 0 <= Id(n) < WORD
  {
    IdInClosedForm(n);
  }

  /** Two ids are equal exactly when a whole number of periods lies between them; so as many
      ids in a row as there are values are pairwise different. */
  lemma EqualExactlyAfterPeriods(m: nat, n: nat)
    requires m < n
    ensures Id(m) == Id(n) <==> (n - m) % PERIOD == 0
    ensures n - m < PERIOD ==> Id(m) != Id(n)
  {
    IdInClosedForm(m);
    IdInClosedForm(n);
    if m % PERIOD == n % PERIOD { SameRemainder(m, n); }
    if (n - m) % PERIOD == 0 { WholePeriods(m, n); }
  }

  lemma SameRemainder(m: nat, n: nat)
    requires m % PERIOD == n % PERIOD
    ensures (n - m) % PERIOD == 0
  {
    assert m == PERIOD * (m / PERIOD) + m % PERIOD && n == PERIOD * (n / PERIOD) + n % PERIOD;
    Remainder(n - m, n / PERIOD - m / PERIOD, 0);
  }

  lemma WholePeriods(m: nat, n: nat)
    requires (n - m) % PERIOD == 0
    ensures m % PERIOD == n % PERIOD
  {
    var q := (n - m) / PERIOD;
    assert m == PERIOD * (m / PERIOD) + m % PERIOD && n - m == PERIOD * q;
    Remainder(n, m / PERIOD + q, m % PERIOD);
  }

  class LocAdapterBase {
    var mSessionIdCounter: int
    ghost var generated: nat

    ghost predicate Valid()
      reads this
    {
      mSessionIdCounter == Id(generated)
    }

    constructor ()
      ensures Valid() && generated == 0
    {
      mSessionIdCounter, generated := 1, 0;
    }

    method GenerateSessionId() returns (id: int)
      requires Valid()
      modifies this
      ensures Valid() && generated == old(generated) + 1
      ensures id == Id(generated) == 1 + generated % PERIOD
    {
      mSessionIdCounter := (mSessionIdCounter + 1) % WORD;
      if mSessionIdCounter == RESERVED {
        mSessionIdCounter := 1;
      }
      id := mSessionIdCounter;
      generated := generated + 1;
      IdInClosedForm(generated);
    }
  }
}
