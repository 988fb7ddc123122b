/**
 * The process-wide byte counter `totalBytes` and the lock `statsLock` that guards it
 * (main.go:45-48). Each locked section is one atomic method of `ByteCounter`.
 */
module Stats {

  /** `totalBytes` is a `uint64`: every addition wraps modulo 2^64. */
  const WORD: nat := 0x1_0000_0000_0000_0000

  /** The sum of a sequence of byte counts. */
  function Sum(s: seq<nat>): nat
  {
    if s == [] then 0 else Sum(s[..|s| - 1]) + s[|s| - 1]
  }

  /** Sums split over concatenation. */
  lemma {:induction false} SumConcat(s: seq<nat>, t: seq<nat>)
    ensures Sum(s + t) == Sum(s) + Sum(t)
    decreases |t|
  {
    if t != [] {
      assert (s + t)[..|s + t| - 1] == s + t[..|t| - 1];
      SumConcat(s, t[..|t| - 1]);
    } else {
      assert s + t == s;
    }
  }

  /** Adding to a value already reduced modulo 2^64 gives the same result as adding first. */
  lemma AddWraps(a: nat, n: nat)
    ensures (a % WORD + n) % WORD == (a + n) % WORD
  {
    var q := a / WORD;
    assert a == q * WORD + a % WORD;
    assert a + n == (a % WORD + n) + q * WORD;
  }

  /** The shared counter of bytes downloaded since the last hourly flush. */
  class ByteCounter {
    /** The current value of `totalBytes`. */
    var total: nat
    /** The byte counts added since the last flush, oldest first. */
    ghost var pending: seq<nat>

    /** The counter holds the wrapped sum of everything added since the last flush. */
    ghost predicate Valid()
      reads this
    {
      total == Sum(pending) % WORD
    }

    /** The zero value the global starts with. */
    constructor ()
      ensures Valid() && total == 0 && pending == []
    {
      total := 0;
      pending := [];
    }

    /** `add(n)`: `totalBytes += uint64(n)` inside the lock. */
    method Add(n: nat)
      requires Valid()
      modifies this
      ensures Valid() && pending == old(pending) + [n]
      ensures total == (old(total) + n) % WORD
    {
      AddWraps(Sum(pending), n);
      total := (total + n) % WORD;
      pending := pending + [n];
      assert pending[..|pending| - 1] == old(pending);
    }

    /** `flush`: read the counter and reset it to zero inside one locked section. */
    method Flush() returns (bytes: nat)
      requires Valid()
      modifies this
      ensures bytes == Sum(old(pending)) % WORD && bytes < WORD
      ensures Valid() && total == 0 && pending == []
    {
      bytes := total;
      total := 0;
      pending := [];
    }
  }

  /**
   * Any run of `add` calls followed by two flushes: the first flush returns exactly the
   * (wrapped) sum of everything added since the previous flush, the second returns 0.
   */
  method AddThenFlushTwice(c: ByteCounter, adds: seq<nat>) returns (first: nat, second: nat)
    requires c.Valid()
    modifies c
    ensures first == Sum(old(c.pending) + adds) % WORD
    ensures second == 0
    ensures c.Valid() && c.total == 0 && c.pending == []
  {
    for i := 0 to |adds|
      invariant c.Valid() && c.pending == old(c.pending) + adds[..i]
    {
      c.Add(adds[i]);
      assert adds[..i + 1] == adds[..i] + [adds[i]];
    }
    assert adds[..|adds|] == adds;
    first := c.Flush();
    second := c.Flush();
  }

  /** The flush window of two downloads of 1000 and 2000 bytes. */
  method FlushWindowExample()
  {
    var c := new ByteCounter();
    c.Add(1000);
    c.Add(2000);
    var first := c.Flush();
    assert first == 3000;
    var second := c.Flush();
    assert second == 0;
  }
}
