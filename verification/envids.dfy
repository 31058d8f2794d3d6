/** Environment ids: how env_alloc numbers a slot's successive occupants, and how
    envid2env tells them apart. */
module EnvIds {
  const NENV: nat := 1024
  const GENERATION: nat := 4096                 // 1 << ENVGENSHIFT
  const CYCLE: nat := 0x8_0000 - 1              // generations before ids repeat

  // The value of x as a 32-bit signed integer.
  function Int32(x: int): int {
    (x + 0x8000_0000) % 0x1_0000_0000 - 0x8000_0000
  }

  // x & ~(NENV - 1)
  function ClearIndex(x: int): int { x - x % NENV }

  // The id env_alloc gives slot idx whose last id was `last`.
  function NextId(last: int, idx: nat): int {
    var generation := ClearIndex(Int32(last + GENERATION));
    (if generation <= 0 then GENERATION else generation) + idx
  }

  function ENVX(envid: int): nat { envid % NENV }

  // The id of slot idx after k allocations; the table starts out zeroed.
  function IdAfter(k: nat, idx: nat): int {
    if k == 0 then 0 else NextId(IdAfter(k - 1, idx), idx)
  }

  lemma {:induction false} IdClosedForm(k: nat, idx: nat)
    requires k > 0 && idx < NENV
    ensures IdAfter(k, idx) == ((k - 1) % CYCLE + 1) * GENERATION + idx
  {
    if k == 1 {
      assert NextId(0, idx) == GENERATION + idx;
    } else {
      IdClosedForm(k - 1, idx);
      var g := (k - 2) % CYCLE + 1;
      NextGeneration(g, idx);
      NextResidue(k - 2);
    }
  }

  lemma IndexOf(a: int, idx: nat)
    requires idx < NENV
    ensures (a * NENV + idx) % NENV == idx
  {
    var x := a * NENV + idx;
    assert x == x / NENV * NENV + x % NENV;
    assert (x / NENV - a) * NENV == idx - x % NENV;
  }

  lemma NextGeneration(g: nat, idx: nat)
    requires 1 <= g <= CYCLE && idx < NENV
    ensures NextId(g * GENERATION + idx, idx) == (if g == CYCLE then 1 else g + 1) * GENERATION + idx
  {
    var x := g * GENERATION + idx + GENERATION;
    if g < CYCLE {
      assert Int32(x) == x;
      IndexOf(4 * (g + 1), idx);
      assert x == 4 * (g + 1) * NENV + idx;
    } else {
      assert Int32(x) == -0x20_0000 * NENV + idx;
      IndexOf(-0x20_0000, idx);
    }
  }

  lemma NextResidue(n: nat)
    ensures (n + 1) % CYCLE == if n % CYCLE + 1 == CYCLE then 0 else n % CYCLE + 1
  {
    var q, r := n / CYCLE, n % CYCLE;
    assert n == q * CYCLE + r;
    if r + 1 == CYCLE {
      assert n + 1 == (q + 1) * CYCLE;
    } else {
      assert n + 1 == q * CYCLE + (r + 1);
    }
  }

  // Ids are positive 32-bit numbers that say which slot they name.
  lemma IdShape(k: nat, idx: nat)
    requires k > 0 && idx < NENV
    ensures 0 < IdAfter(k, idx) < 0x8000_0000 && ENVX(IdAfter(k, idx)) == idx
  {
    IdClosedForm(k, idx);
    var g := (k - 1) % CYCLE + 1;
    IndexOf(4 * g, idx);
    assert IdAfter(k, idx) == 4 * g * NENV + idx;
  }

  // Two occupants of a slot share an id exactly when 2^19 - 1 allocations, or a multiple,
  // lie between them.
  lemma IdsRepeatExactly(j: nat, k: nat, idx: nat)
    requires 0 < j <= k && idx < NENV
    ensures IdAfter(j, idx) == IdAfter(k, idx) <==> (k - j) % CYCLE == 0
  {
    IdClosedForm(j, idx);
    IdClosedForm(k, idx);
    var a, b := j - 1, k - 1;
    assert a == a / CYCLE * CYCLE + a % CYCLE && b == b / CYCLE * CYCLE + b % CYCLE;
    if a % CYCLE == b % CYCLE {
      assert k - j == (b / CYCLE - a / CYCLE) * CYCLE;
      Multiple(b / CYCLE - a / CYCLE);
    }
    if (k - j) % CYCLE == 0 {
      var q := (k - j) / CYCLE;
      assert b == (a / CYCLE + q) * CYCLE + a % CYCLE;
    }
  }

  lemma Multiple(q: int)
    ensures (q * CYCLE) % CYCLE == 0
  {}
}
