/** Powers of two over the reals, and the range of a double. */
module PowersOfTwo {
  import opened NumberValue

  function PowerOfTwo(n: nat): (r: real)
    ensures r >= 1.0
  {
    if n == 0 then 1.0 else 2.0 * PowerOfTwo(n - 1)
  }

  lemma {:induction false} PowerOfSum(a: nat, b: nat)
    ensures PowerOfTwo(a + b) == PowerOfTwo(a) * PowerOfTwo(b)
    decreases a
  {
    if a == 0 {
    } else {
      PowerOfSum(a - 1, b);
      Regrouped(PowerOfTwo(a - 1), PowerOfTwo(b));
    }
  }

  lemma Regrouped(x: real, y: real)
    ensures 2.0 * (x * y) == (2.0 * x) * y
  {
  }

  lemma PowerUpTo8()
    ensures PowerOfTwo(2) == 4.0 && PowerOfTwo(6) == 64.0 && PowerOfTwo(8) == 256.0
  {
    assert PowerOfTwo(3) == 8.0 && PowerOfTwo(5) == 32.0;
  }

  lemma PowerUpTo54()
    ensures PowerOfTwo(10) == 1024.0 && PowerOfTwo(16) == 65536.0 && PowerOfTwo(32) == 4294967296.0
    ensures PowerOfTwo(54) == 18014398509481984.0
  {
    hide PowerOfTwo;
    PowerUpTo8();
    PowerOfSum(2, 8);
    PowerOfSum(8, 8);
    PowerOfSum(16, 16);
    PowerOfSum(6, 16);
    PowerOfSum(32, 22);
  }

  lemma PowerUpTo512()
    ensures PowerOfTwo(64) == 18446744073709551616.0
    ensures PowerOfTwo(128) == 340282366920938463463374607431768211456.0
    ensures PowerOfTwo(256) == 115792089237316195423570985008687907853269984665640564039457584007913129639936.0
    ensures PowerOfTwo(512) == 13407807929942597099574024998205846127479365820592393377723561443721764030073546976801874298166903427690031858186486050853753882811946569946433649006084096.0
  {
    hide PowerOfTwo;
    PowerUpTo54();
    PowerOfSum(32, 32);
    PowerOfSum(64, 64);
    PowerOfSum(128, 128);
    PowerOfSum(256, 256);
  }

  lemma PowerUpTo970()
    ensures PowerOfTwo(970) == 9979201547673599058281863565184192830337256302177287707512736212186059459344820328924789827463178505446712234220962476219862189941967968303695858991424157101600028364755428382587688607221814935913266783722719619966654052275604351944444276342240220787535604534378780208211792476151720049639424.0
  {
    hide PowerOfTwo;
    PowerUpTo8();
    PowerUpTo512();
    PowerOfSum(2, 8);
    PowerOfSum(10, 64);
    PowerOfSum(74, 128);
    PowerOfSum(202, 256);
    PowerOfSum(458, 512);
  }

  /** The bound of the finite numbers lies halfway between the largest double and the next power. */
  lemma OverflowIs()
    ensures OVERFLOW == PowerOfTwo(1024) - PowerOfTwo(970)
  {
    hide PowerOfTwo;
    PowerUpTo970();
    PowerUpTo54();
    PowerOfSum(54, 970);
  }

  /** A number is finite exactly below 2^1024 - 2^970, in magnitude. */
  lemma FiniteExactly(x: real)
    ensures IsFinite(x) <==> (if x < 0.0 then -x else x) < PowerOfTwo(1024) - PowerOfTwo(970)
  {
    hide PowerOfTwo;
    OverflowIs();
  }
}
