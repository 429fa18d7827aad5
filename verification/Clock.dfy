/** Wrap-around comparison of 32-bit millisecond clocks and the rebuilding of the
    16-bit time that an acknowledgement echoes. */
module Clock {
  import opened Numbers

  const DAY := 86400000

  function Low32(t: nat): uint32 {
    t % 0x1_0000_0000
  }

  function Sub32(a: uint32, b: uint32): uint32 {
    if a >= b then a - b else a - b + 0x1_0000_0000
  }

  function Add32(a: uint32, b: uint32): uint32 {
    if a + b < 0x1_0000_0000 then a + b else a + b - 0x1_0000_0000
  }

  predicate TimeLess(a: uint32, b: uint32) {
    Sub32(a, b) >= DAY
  }

  function TimeDifference(a: uint32, b: uint32): uint32 {
    if Sub32(a, b) >= DAY then Sub32(b, a) else Sub32(a, b)
  }

  /** For true times less than one day apart the comparison is the true order and the
      difference is the true distance, however often the 32-bit clock wrapped. */
  lemma ClockIsTrue(s: nat, t: nat)
    requires s < t + DAY && t < s + DAY
    ensures TimeLess(Low32(s), Low32(t)) <==> s < t
    ensures TimeDifference(Low32(s), Low32(t)) == if s < t then t - s else s - t
  {
  }

  /** What the acknowledgement handler makes of the echoed 16-bit time: the upper half of
      the current time is put in front, and 2^16 is taken off when bit 15 of the echo is
      set and bit 15 of the current time is not. */
  function Rebuild(echo: uint16, now: uint32): uint32 {
    var joined := now / 0x10000 * 0x10000 + echo;
    if echo / 0x8000 > now / 0x8000 % 2 then Sub32(joined, 0x10000) else joined
  }

  ghost predicate RebuildsExactly(age: nat) {
    forall now: nat :: age <= now ==> Rebuild(Low16(now - age), Low32(now)) == Low32(now - age)
  }

  lemma SplitTime(t: nat)
    ensures Low32(t) == t / 0x10000 % 0x10000 * 0x10000 + t % 0x10000
    ensures Low16(t) == t % 0x10000 && Low32(t) / 0x10000 == t / 0x10000 % 0x10000
    ensures Low32(t) / 0x8000 % 2 == t % 0x10000 / 0x8000
  {
    var b, low := t / 0x10000, t % 0x10000;
    var q, r := b / 0x10000, b % 0x10000;
    assert t == q * 0x1_0000_0000 + (r * 0x10000 + low);
  }

  lemma RebuildSameBlock(low: nat, echo: uint16, block: uint16)
    requires echo <= low < 0x10000
    ensures Rebuild(echo, block * 0x10000 + low) == block * 0x10000 + echo
  {
    var now := block * 0x10000 + low;
    assert now / 0x10000 == block && now / 0x8000 % 2 == low / 0x8000;
  }

  lemma RebuildBlockBefore(low: nat, echo: uint16, block: uint16)
    requires low < 0x8000 <= echo
    ensures Rebuild(echo, block * 0x10000 + low) == (if block == 0 then 0xFFFF else block - 1) * 0x10000 + echo
  {
    var now := block * 0x10000 + low;
    assert now / 0x10000 == block && now / 0x8000 % 2 == 0;
  }

  lemma BlockBefore(block: nat)
    requires block > 0
    ensures (block - 1) % 0x10000 == if block % 0x10000 == 0 then 0xFFFF else block % 0x10000 - 1
  {
  }

  lemma RebuildRecent(now: nat, age: nat)
    requires age <= now && age <= 0x8000
    ensures Rebuild(Low16(now - age), Low32(now)) == Low32(now - age)
  {
    var sent := now - age;
    var block, low := now / 0x10000, now % 0x10000;
    SplitTime(now);
    SplitTime(sent);
    if age <= low {
      assert sent == block * 0x10000 + (low - age);
      assert sent / 0x10000 == block && sent % 0x10000 == low - age;
      RebuildSameBlock(low, low - age, block % 0x10000);
    } else {
      assert sent == (block - 1) * 0x10000 + (0x10000 + low - age);
      assert sent / 0x10000 == block - 1 && sent % 0x10000 == 0x10000 + low - age;
      BlockBefore(block);
      RebuildBlockBefore(low, 0x10000 + low - age, block % 0x10000);
    }
  }

  /** 0x8000 ms is exactly how old (under a day) an echoed time may be: up to that age it is rebuilt for
      every current time, and beyond it there is a current time at which it is not. */
  lemma RebuildExactIffRecent(age: nat)
    requires age < DAY
    ensures RebuildsExactly(age) <==> age <= 0x8000
  {
    if age <= 0x8000 {
      forall now: nat | age <= now
        ensures Rebuild(Low16(now - age), Low32(now)) == Low32(now - age)
      {
        RebuildRecent(now, age);
      }
    } else {
      RebuildOldFails(age);
    }
  }

  lemma RebuildOldFails(age: nat)
    requires 0x8000 < age < DAY
    ensures !RebuildsExactly(age)
  {
    var block := 0x8000;
    var now := block * 0x10000 + 0x8000;
    assert now == 0x8000_8000;
    assert Low32(now) == now && now / 0x10000 * 0x10000 == 0x8000_0000 && now / 0x8000 % 2 == 1;
    var sent := now - age;
    assert Rebuild(Low16(sent), Low32(now)) >= 0x8000_0000 > sent == Low32(sent);
  }

  /** So the round-trip time that is computed from an echo at most 0x8000 ms old is the true
      time that has passed, and the acknowledgement is not taken for one from the future. */
  lemma EchoGivesElapsedTime(now: nat, age: nat)
    requires age <= now && age <= 0x8000
    ensures var sent := Rebuild(Low16(now - age), Low32(now));
            !TimeLess(Low32(now), sent) && TimeDifference(Low32(now), sent) == age
  {
    RebuildRecent(now, age);
    ClockIsTrue(now, now - age);
  }
}
