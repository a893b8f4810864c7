/** The buyers' pseudo-random secret numbers (22/22.py): mix, prune, one evolution step, the
    price digit, and the sum of every buyer's secret after 2000 steps.

    Secrets are 64-bit words here, where the source has unbounded integers. For a starting
    secret below 2^64 the two agree: the first product by 64 may pass 2^64, but only its
    low 24 bits survive the prune that follows, and those do not depend on the bits lost;
    every later operand is a pruned value below 2^24. */
module SecretNumbers {

  type Secret = bv64

  const PruneModulus: bv64 := 0x100_0000

  /** Mixing is bitwise exclusive-or: either value can be recovered from the mix by
      exclusive-or with the other. */
  function Mix(a: Secret, b: Secret): (r: Secret)
    ensures r ^ b == a && r ^ a == b
  {
    a ^ b
  }

  /** Pruning keeps the remainder modulo 16777216 = 2^24, that is the low 24 bits. */
  function Prune(a: Secret): (r: Secret)
    ensures r < PruneModulus
  {
    a & 0xFF_FFFF
  }

  /** Keeping the low 24 bits is the remainder modulo 16777216. */
  lemma PruneIsRemainder(a: Secret)
    ensures Prune(a) == a % 0x100_0000
  {
  }

  /** Multiply by 64, divide by 32 rounding down, multiply by 2048, each followed by mix and
      prune. The result always lies below 2^24. */
  function NextSecret(secret: Secret): (r: Secret)
    ensures r < PruneModulus
  {
    var s1 := Prune(Mix(secret * 64, secret));
    var s2 := Prune(Mix(s1 / 32, s1));
    Prune(Mix(s2 * 2048, s2))
  }

  /** The price is the last decimal digit of the secret. */
  function Price(secret: Secret): (p: int)
    ensures 0 <= p <= 9
  {
    (secret as int) % 10
  }

  /** The fixture values of the source's assertions. */
  lemma Fixtures()
    ensures NextSecret(123) == 15887950
    ensures NextSecret(15887950) == 16495136
    ensures NextSecret(16495136) == 527345
    ensures Price(123) == 3 && Price(15887950) == 0 && Price(16495136) == 6
  {
  }

  /** The secret after n steps. */
  function Evolve(secret: Secret, n: nat): (r: Secret)
    ensures n > 0 ==> r < PruneModulus
  {
    if n == 0 then secret else NextSecret(Evolve(secret, n - 1))
  }

  function SumAfter(secrets: seq<Secret>, n: nat): int
  {
    if secrets == [] then 0
    else SumAfter(secrets[..|secrets| - 1], n) + Evolve(secrets[|secrets| - 1], n) as int
  }

  lemma SumAfterPrefix(secrets: seq<Secret>, b: nat, n: nat)
    requires b < |secrets|
    ensures SumAfter(secrets[..b + 1], n) == SumAfter(secrets[..b], n) + Evolve(secrets[b], n) as int
  {
    assert secrets[..b + 1][..b] == secrets[..b];
  }

  const Steps: nat := 2000

  /** The inner loop: one buyer's secret evolved 2000 times. */
  method EvolveSteps(start: Secret) returns (secret: Secret)
    ensures secret == Evolve(start, Steps)
  {
    secret := start;
    var i := 0;
    while i < Steps
      invariant 0 <= i <= Steps
      invariant secret == Evolve(start, i)
    {
      secret := NextSecret(secret);
      i := i + 1;
    }
  }

  /** Each buyer's secret is evolved exactly 2000 times and the results are summed; every
      term lies below 2^24. */
  method SumOfSecrets(secrets: seq<Secret>) returns (total: int)
    ensures total == SumAfter(secrets, Steps)
  {
    total := 0;
    var b := 0;
    while b < |secrets|
      invariant 0 <= b <= |secrets|
      invariant total == SumAfter(secrets[..b], Steps)
    {
      var secret := EvolveSteps(secrets[b]);
      SumAfterPrefix(secrets, b, Steps);
      total := total + secret as int;
      b := b + 1;
    }
    assert secrets[..b] == secrets;
  }
}
