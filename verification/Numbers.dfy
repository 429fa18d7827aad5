/** Sixteen-bit sequence numbers, the windows they fall in, and the unbounded
    serials they stand for. A channel counts its commands with a `uint16_t`; here the
    count is a `nat` called a serial and `Low16` is the value that the program holds
    and puts on the wire. */
module Numbers {
  type uint16 = n: int | 0 <= n < 0x10000
  type uint32 = n: int | 0 <= n < 0x1_0000_0000

  const WINDOW_SIZE := 0x1000
  const WINDOWS := 16
  const FREE_WINDOWS := 8

  function Low16(serial: nat): uint16 {
    serial % 0x10000
  }

  /** Sixteen-bit increment. */
  function Successor(n: uint16): uint16 {
    if n == 0xFFFF then 0 else n + 1
  }

  /** How far `n` lies ahead of `base`, going round modulo 2^16. */
  function Distance(n: uint16, base: uint16): (d: nat)
    ensures d < 0x10000
  {
    if n >= base then n - base else n - base + 0x10000
  }

  /** The window of `n` minus the window of `base`, with the correction that the
      receiving code makes for a number that is numerically smaller. */
  function WindowsAhead(n: uint16, base: uint16): int {
    n / WINDOW_SIZE + (if n < base then WINDOWS else 0) - base / WINDOW_SIZE
  }

  /** The acceptance test of the receiving side. */
  predicate Acceptable(n: uint16, base: uint16) {
    0 <= WindowsAhead(n, base) < FREE_WINDOWS - 1
  }

  /** The band in which no acknowledgement is queued. */
  predicate AckSuppressed(n: uint16, base: uint16) {
    FREE_WINDOWS - 1 <= WindowsAhead(n, base) <= FREE_WINDOWS
  }

  /** The correction turns the window difference into a function of the distance. */
  lemma WindowsAheadIsModular(n: uint16, base: uint16)
    ensures WindowsAhead(n, base) == (base % WINDOW_SIZE + Distance(n, base)) / WINDOW_SIZE
  {
  }

  /** The acceptance window: every distance up to 0x6000 is accepted, none from 0x7000 on,
      and in between it depends on where in its window the base stands. */
  lemma AcceptanceWindow(n: uint16, base: uint16)
    ensures Acceptable(n, base) <==> base % WINDOW_SIZE + Distance(n, base) < 0x7000
    ensures Distance(n, base) <= 0x6000 ==> Acceptable(n, base)
    ensures Distance(n, base) >= 0x7000 ==> !Acceptable(n, base)
  {
  }

  /** The band in which nothing is acknowledged is the two windows behind the acceptance window. */
  lemma AckBand(n: uint16, base: uint16)
    ensures AckSuppressed(n, base) <==> 0x7000 <= base % WINDOW_SIZE + Distance(n, base) < 0x9000
    ensures AckSuppressed(n, base) ==> !Acceptable(n, base)
  {
  }

  /** The window counter that a 16-bit number selects is the window of its serial modulo 16. */
  lemma WindowSlot(serial: nat)
    ensures Low16(serial) / WINDOW_SIZE == (serial / WINDOW_SIZE) % WINDOWS
    ensures Low16(serial) % WINDOW_SIZE == serial % WINDOW_SIZE
    ensures serial / WINDOW_SIZE == 16 * (serial / 0x10000) + Low16(serial) / WINDOW_SIZE
  {
    var q, u, v := serial / 0x10000, Low16(serial) / 0x1000, Low16(serial) % 0x1000;
    assert serial == 0x1000 * (16 * q + u) + v;
  }

  /** A number that names a serial less than 2^16 ahead of the base is read back exactly. */
  lemma ReadAhead(serial: nat, base: nat)
    requires base <= serial < base + 0x10000
    ensures Distance(Low16(serial), Low16(base)) == serial - base
    ensures WindowsAhead(Low16(serial), Low16(base)) == serial / WINDOW_SIZE - base / WINDOW_SIZE
  {
    var a, c := serial / 0x10000, base / 0x10000;
    var n: int, b: int := Low16(serial), Low16(base);
    assert n - b == (serial - base) - 0x10000 * (a - c);
    assert a == c || a == c + 1;
    WindowSlot(serial);
    WindowSlot(base);
    if a == c {
      assert n >= b && serial / 0x1000 - base / 0x1000 == n / 0x1000 - b / 0x1000;
    } else {
      assert n < b && serial / 0x1000 - base / 0x1000 == n / 0x1000 + 16 - b / 0x1000;
    }
  }

  lemma OneTurnLater(serial: nat)
    ensures Low16(serial + 0x10000) == Low16(serial)
    ensures (serial + 0x10000) / WINDOW_SIZE == serial / WINDOW_SIZE + WINDOWS
  {
    var q, r := serial / 0x1000, serial % 0x1000;
    assert serial + 0x10000 == 0x1000 * (q + 16) + r;
  }

  /** A number that names a serial at most nine windows behind the base is never taken
      for a new one. */
  lemma ReadBehind(serial: nat, base: nat)
    requires serial < base && base / WINDOW_SIZE <= serial / WINDOW_SIZE + 9
    ensures WindowsAhead(Low16(serial), Low16(base)) == WINDOWS + serial / WINDOW_SIZE - base / WINDOW_SIZE
    ensures !Acceptable(Low16(serial), Low16(base)) && Low16(serial) != Low16(base)
  {
    assert base - serial < 0x10000;
    OneTurnLater(serial);
    ReadAhead(serial + 0x10000, base);
  }

  /** Nine windows is the most that can be allowed: ten windows behind, the old number is
      accepted as new. */
  lemma ReadTooFarBehind(serial: nat, base: nat)
    requires serial < base < serial + 0x10000 && base / WINDOW_SIZE >= serial / WINDOW_SIZE + 10
    ensures Acceptable(Low16(serial), Low16(base))
  {
    OneTurnLater(serial);
    ReadAhead(serial + 0x10000, base);
  }
}
