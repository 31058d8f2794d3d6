/** The debugger's search for the symbol-table entry that covers an address. */
module Stabs {
  const WORD: nat := 0x1_0000_0000

  type Address = x: nat | x < WORD

  datatype Stab = Stab(kind: int, value: Address)

  // addr++ on an unsigned 32-bit integer.
  function Succ(a: Address): Address { if a == WORD - 1 then 0 else a + 1 }

  predicate Typed(stabs: seq<Stab>, kind: int, i: int) {
    0 <= i < |stabs| && stabs[i].kind == kind
  }

  // Some entry in [lo, hi] has the wanted kind.
  predicate AnyTyped(stabs: seq<Stab>, kind: int, lo: int, hi: int) {
    exists i :: lo <= i <= hi && Typed(stabs, kind, i)
  }

  // Some entry in [lo, hi] has the wanted kind and address a.
  predicate At(stabs: seq<Stab>, kind: int, lo: int, hi: int, a: Address) {
    exists i :: lo <= i <= hi && Typed(stabs, kind, i) && stabs[i].value == a
  }

  predicate Sorted(stabs: seq<Stab>, kind: int, lo: int, hi: int) {
    forall i, j :: lo <= i < j <= hi && Typed(stabs, kind, i) && Typed(stabs, kind, j) ==> stabs[i].value <= stabs[j].value
  }

  // The last entry of the wanted kind in [lo, hi], else lo - 1: where a probe at hi ends up.
  function LastTyped(stabs: seq<Stab>, kind: int, lo: int, hi: int): (m: int)
    requires 0 <= lo <= hi + 1 && hi < |stabs|
    ensures lo - 1 <= m <= hi
    ensures m >= lo ==> Typed(stabs, kind, m)
    ensures forall i :: m < i <= hi ==> !Typed(stabs, kind, i)
    decreases hi - lo + 1
  {
    if hi < lo || stabs[hi].kind == kind then hi else LastTyped(stabs, kind, lo, hi - 1)
  }

  // right is the last index of [lo, hi] before the next entry of the kind beyond a, and left
  // is the last entry of the kind at or below a. Where there is none, left is lo, or right if
  // that is even smaller.
  ghost predicate Brackets(stabs: seq<Stab>, kind: int, lo: int, hi: int, a0: Address, a: Address, left: int, right: int) {
    && lo - 1 <= right <= hi
    && (right == hi || Typed(stabs, kind, right + 1))
    && (forall i :: lo <= i <= right && Typed(stabs, kind, i) ==> stabs[i].value <= a)
    && (forall i :: right < i <= hi && Typed(stabs, kind, i) ==> Beyond(stabs[i].value, a0, a))
    && (a > a0 ==> At(stabs, kind, lo, right, a))
    && (if AnyTyped(stabs, kind, lo, right)
        then lo <= left <= right && Typed(stabs, kind, left) && !AnyTyped(stabs, kind, left + 1, right)
        else left == if lo <= right then lo else right)
  }

  // Every address from a up to b is that of some entry.
  ghost predicate Consecutive(stabs: seq<Stab>, kind: int, lo: int, hi: int, a: Address, b: Address) {
    a == b || (a < b && forall x :: a <= x <= b ==> At(stabs, kind, lo, hi, x))
  }

  // An entry with this address was cut off on the right.
  predicate Beyond(value: Address, a0: Address, a: Address) { value > a || (value == a && a > a0) }

  // What the halving loop knows of the region [lo, hi] once it is down to [l, r] and `addr`
  // has been counted up from a0; `a` is the address the answer will be right for.
  ghost predicate Narrowed(stabs: seq<Stab>, kind: int, lo: int, hi: int, a0: Address,
                           left: int, l: int, r: int, addr: Address, a: Address) {
    && Consecutive(stabs, kind, lo, hi, a0, a)
    && (addr == a == a0 || (addr == a + 1 && At(stabs, kind, lo, r, a)))
    && lo <= left <= r + 1 && (left > lo ==> left <= r && Typed(stabs, kind, left) && stabs[left].value < addr)
    && (forall i :: lo <= i < l && Typed(stabs, kind, i) ==> stabs[i].value < addr)
    && (forall i :: r < i <= hi && Typed(stabs, kind, i) ==> Beyond(stabs[i].value, a0, a))
  }

  // The next probe of [l, r] hits an entry at exactly addr.
  predicate Hit(stabs: seq<Stab>, kind: int, l: int, r: int, addr: Address) {
    0 <= l <= r < |stabs| &&
    var m := LastTyped(stabs, kind, l, (l + r) / 2); m >= l && stabs[m].value == addr
  }

  lemma NarrowUp(stabs: seq<Stab>, kind: int, lo: int, hi: int, a0: Address,
                 left: int, l: int, r: int, addr: Address, a: Address, m: int, trueM: int)
    requires 0 <= lo <= l <= trueM <= r <= hi < |stabs| && Sorted(stabs, kind, lo, hi)
    requires Narrowed(stabs, kind, lo, hi, a0, left, l, r, addr, a)
    requires l - 1 <= m <= trueM && !AnyTyped(stabs, kind, m + 1, trueM)
    requires m >= l ==> Typed(stabs, kind, m) && stabs[m].value < addr
    ensures Narrowed(stabs, kind, lo, hi, a0, if m >= l then m else left, trueM + 1, r, addr, a)
  {
    forall i | lo <= i < trueM + 1 && Typed(stabs, kind, i) ensures stabs[i].value < addr {
      if i >= l { assert i <= m; }
    }
  }

  lemma NarrowDown(stabs: seq<Stab>, kind: int, lo: int, hi: int, a0: Address,
                   left: int, l: int, r: int, addr: Address, a: Address, m: int)
    requires 0 <= lo <= l <= m <= r <= hi < |stabs| && Sorted(stabs, kind, lo, hi)
    requires Narrowed(stabs, kind, lo, hi, a0, left, l, r, addr, a)
    requires Typed(stabs, kind, m) && stabs[m].value > addr
    ensures Narrowed(stabs, kind, lo, hi, a0, left, l, m - 1, addr, a)
  {
    if left > lo {
      assert left < m;
    }
  }

  lemma NarrowHit(stabs: seq<Stab>, kind: int, lo: int, hi: int, a0: Address,
                  left: int, l: int, r: int, addr: Address, a: Address, m: int)
    requires 0 <= lo <= l <= m <= r <= hi < |stabs| && Sorted(stabs, kind, lo, hi)
    requires Narrowed(stabs, kind, lo, hi, a0, left, l, r, addr, a)
    requires Typed(stabs, kind, m) && stabs[m].value == addr < WORD - 1
    ensures Narrowed(stabs, kind, lo, hi, a0, m, m, r, addr + 1, addr)
  {
    assert At(stabs, kind, lo, hi, addr);
    forall i | r < i <= hi && Typed(stabs, kind, i) ensures Beyond(stabs[i].value, a0, addr) {
      assert stabs[m].value <= stabs[i].value;
    }
  }

  lemma Finish(stabs: seq<Stab>, kind: int, lo: int, hi: int, a0: Address,
               left: int, l: int, r: int, addr: Address, a: Address, last: int)
    requires 0 <= lo <= hi < |stabs| && l == r + 1 && lo <= l && r <= hi
    requires Narrowed(stabs, kind, lo, hi, a0, left, l, r, addr, a)
    requires r == hi || Typed(stabs, kind, r + 1)
    requires last <= r && (last == left || last == r || left < last)
    requires last > left ==> Typed(stabs, kind, last)
    requires left <= r ==> left <= last
    requires !AnyTyped(stabs, kind, last + 1, r)
    ensures Brackets(stabs, kind, lo, hi, a0, a, last, r)
  {
    if AnyTyped(stabs, kind, lo, r) {
      var i :| lo <= i <= r && Typed(stabs, kind, i);
      assert i <= last;
      assert left <= r;
      assert lo <= last <= r;
    } else if lo <= r {
      assert left == lo;
    } else {
    }
  }

  // The backwards scan for an entry of the wanted kind, down to l - 1.
  method Earlier(stabs: seq<Stab>, kind: int, l: int, trueM: int) returns (m: int)
    requires 0 <= l <= trueM < |stabs|
    ensures m == LastTyped(stabs, kind, l, trueM)
  {
    m := trueM;
    while m >= l && stabs[m].kind != kind
      invariant l - 1 <= m <= trueM && LastTyped(stabs, kind, l, m) == LastTyped(stabs, kind, l, trueM)
    {
      m := m - 1;
    }
  }

  // The state of the halving loop.
  datatype Region = Region(left: int, l: int, r: int, any: bool, addr: Address, a: Address)

  // The search hit an entry at the last address, and counted on to 0.
  ghost predicate Wrapped(stabs: seq<Stab>, kind: int, lo: int, hi: int, a0: Address, s: Region) {
    && s.addr == 0 && s.a == WORD - 1 && Consecutive(stabs, kind, lo, hi, a0, WORD - 1)
    && lo <= s.left == s.l && Typed(stabs, kind, s.left) && stabs[s.left].value == WORD - 1
  }

  ghost predicate Kept(stabs: seq<Stab>, kind: int, lo: int, hi: int, a0: Address, s: Region) {
    && lo <= s.l <= s.r + 1 && s.r <= hi && s.left >= lo
    && (s.r == hi || Typed(stabs, kind, s.r + 1))
    && (s.any ==> AnyTyped(stabs, kind, lo, hi))
    && (!s.any ==> s.left == lo && s.r == hi && !AnyTyped(stabs, kind, lo, s.l - 1))
    && (Wrapped(stabs, kind, lo, hi, a0, s) || Narrowed(stabs, kind, lo, hi, a0, s.left, s.l, s.r, s.addr, s.a))
  }

  // One turn of the halving loop, which probed entry m.
  function Turn(stabs: seq<Stab>, s: Region, m: int): Region
    requires m >= s.l ==> 0 <= m < |stabs|
  {
    var trueM := (s.l + s.r) / 2;
    if m < s.l then s.(l := trueM + 1)
    else if stabs[m].value < s.addr then s.(any := true, left := m, l := trueM + 1)
    else if stabs[m].value > s.addr then s.(any := true, r := m - 1)
    else s.(any := true, left := m, l := m, a := s.addr, addr := Succ(s.addr))
  }

  lemma TurnKeeps(stabs: seq<Stab>, kind: int, lo: int, hi: int, a0: Address, s: Region, m: int)
    requires 0 <= lo <= hi < |stabs| && Sorted(stabs, kind, lo, hi) && Kept(stabs, kind, lo, hi, a0, s) && s.l <= s.r
    requires m == LastTyped(stabs, kind, s.l, (s.l + s.r) / 2)
    ensures Kept(stabs, kind, lo, hi, a0, Turn(stabs, s, m)) && Turn(stabs, s, m).a >= s.a
    ensures Wrapped(stabs, kind, lo, hi, a0, s) ==> Wrapped(stabs, kind, lo, hi, a0, Turn(stabs, s, m)) && Turn(stabs, s, m).left == s.left
  {
    if m >= s.l { assert lo <= m <= hi && Typed(stabs, kind, m); }
    if Wrapped(stabs, kind, lo, hi, a0, s) {
      assert m >= s.l && stabs[m].value == WORD - 1;
    } else {
      TurnNarrows(stabs, kind, lo, hi, a0, s, m);
    }
  }

  lemma TurnNarrows(stabs: seq<Stab>, kind: int, lo: int, hi: int, a0: Address, s: Region, m: int)
    requires 0 <= lo <= s.l <= s.r <= hi < |stabs| && Sorted(stabs, kind, lo, hi)
    requires Narrowed(stabs, kind, lo, hi, a0, s.left, s.l, s.r, s.addr, s.a)
    requires m == LastTyped(stabs, kind, s.l, (s.l + s.r) / 2)
    ensures var s' := Turn(stabs, s, m);
      || Wrapped(stabs, kind, lo, hi, a0, s')
      || Narrowed(stabs, kind, lo, hi, a0, s'.left, s'.l, s'.r, s'.addr, s'.a)
  {
    if m < s.l || stabs[m].value < s.addr {
      NarrowUp(stabs, kind, lo, hi, a0, s.left, s.l, s.r, s.addr, s.a, m, (s.l + s.r) / 2);
    } else if stabs[m].value > s.addr {
      NarrowDown(stabs, kind, lo, hi, a0, s.left, s.l, s.r, s.addr, s.a, m);
    } else {
      assert At(stabs, kind, lo, hi, s.addr);
      if s.addr < WORD - 1 { NarrowHit(stabs, kind, lo, hi, a0, s.left, s.l, s.r, s.addr, s.a, m); }
    }
  }

  // A turn shrinks the region, or hits at its left end, where the next turn does not hit.
  lemma TurnShrinks(stabs: seq<Stab>, kind: int, s: Region, m: int)
    requires 0 <= s.l <= s.r < |stabs| && m == LastTyped(stabs, kind, s.l, (s.l + s.r) / 2)
    ensures var s' := Turn(stabs, s, m);
      || s'.r - s'.l < s.r - s.l
      || (s'.r == s.r && s'.l == s.l && Hit(stabs, kind, s.l, s.r, s.addr) && !Hit(stabs, kind, s'.l, s'.r, s'.addr))
  {}

  // All the turns from s on.
  function Halved(stabs: seq<Stab>, kind: int, s: Region): (s': Region)
    requires 0 <= s.l && s.r < |stabs|
    ensures s'.l > s'.r && s'.r <= s.r && (s.left >= 0 ==> s'.left >= 0)
    decreases s.r - s.l + 1, if Hit(stabs, kind, s.l, s.r, s.addr) then 1 else 0
  {
    if s.l > s.r then s
    else
      var m := LastTyped(stabs, kind, s.l, (s.l + s.r) / 2);
      TurnShrinks(stabs, kind, s, m);
      Halved(stabs, kind, Turn(stabs, s, m))
  }

  lemma HalvedTurn(stabs: seq<Stab>, kind: int, s: Region, m: int)
    requires 0 <= s.l <= s.r < |stabs| && m == LastTyped(stabs, kind, s.l, (s.l + s.r) / 2)
    ensures Halved(stabs, kind, s) == Halved(stabs, kind, Turn(stabs, s, m))
  {}

  // What every turn keeps.
  ghost predicate TurnsKeep(stabs: seq<Stab>, kind: int, inv: Region -> bool) {
    forall s: Region {:trigger TurnOk(stabs, kind, inv, s)} :: inv(s) ==> TurnOk(stabs, kind, inv, s)
  }

  ghost predicate TurnOk(stabs: seq<Stab>, kind: int, inv: Region -> bool, s: Region) {
    0 <= s.l && s.r < |stabs| && (s.l <= s.r ==> inv(Turn(stabs, s, LastTyped(stabs, kind, s.l, (s.l + s.r) / 2))))
  }

  lemma {:induction false} HalvedInv(stabs: seq<Stab>, kind: int, s: Region, inv: Region -> bool)
    requires 0 <= s.l && s.r < |stabs| && inv(s) && TurnsKeep(stabs, kind, inv)
    ensures inv(Halved(stabs, kind, s))
    decreases s.r - s.l + 1, if Hit(stabs, kind, s.l, s.r, s.addr) then 1 else 0
  {
    if s.l <= s.r {
      assert TurnOk(stabs, kind, inv, s);
      var m := LastTyped(stabs, kind, s.l, (s.l + s.r) / 2);
      TurnShrinks(stabs, kind, s, m);
      HalvedTurn(stabs, kind, s, m);
      HalvedInv(stabs, kind, Turn(stabs, s, m), inv);
    }
  }

  // What s turns into after any number of turns.
  ghost predicate Later(stabs: seq<Stab>, kind: int, lo: int, hi: int, a0: Address, s: Region, s': Region) {
    && Kept(stabs, kind, lo, hi, a0, s') && s'.a >= s.a
    && (Wrapped(stabs, kind, lo, hi, a0, s) ==> Wrapped(stabs, kind, lo, hi, a0, s') && s'.left == s.left)
  }

  lemma HalvedKeeps(stabs: seq<Stab>, kind: int, lo: int, hi: int, a0: Address, s: Region)
    requires 0 <= lo <= hi < |stabs| && Sorted(stabs, kind, lo, hi) && Kept(stabs, kind, lo, hi, a0, s)
    ensures var s' := Halved(stabs, kind, s); Later(stabs, kind, lo, hi, a0, s, s') && s'.l == s'.r + 1
  {
    var inv := (t: Region) => Later(stabs, kind, lo, hi, a0, s, t);
    forall t: Region | inv(t) ensures TurnOk(stabs, kind, inv, t) {
      if t.l <= t.r { TurnKeeps(stabs, kind, lo, hi, a0, t, LastTyped(stabs, kind, t.l, (t.l + t.r) / 2)); }
    }
    HalvedInv(stabs, kind, s, inv);
  }

  function Start(lo: int, hi: int, a0: Address): Region { Region(lo, lo, hi, false, a0, a0) }

  // The halving loop; it ends whatever the entries are.
  method Halve(stabs: seq<Stab>, lo: int, hi: int, kind: int, a0: Address) returns (left: int, right: int, anyMatches: bool)
    requires 0 <= lo && hi < |stabs|
    ensures var s := Halved(stabs, kind, Start(lo, hi, a0)); left == s.left && right == s.r && anyMatches == s.any
  {
    left, right, anyMatches := lo, hi, false;
    var l, r, addr := lo, hi, a0;
    ghost var s := Start(lo, hi, a0);
    while l <= r
      invariant 0 <= l && r < |stabs|
      invariant right == r && s == Region(left, l, r, anyMatches, addr, s.a)
      invariant Halved(stabs, kind, s) == Halved(stabs, kind, Start(lo, hi, a0))
      decreases r - l + 1, if Hit(stabs, kind, l, r, addr) then 1 else 0
    {
      var trueM := (l + r) / 2;
      var m := Earlier(stabs, kind, l, trueM);
      TurnShrinks(stabs, kind, s, m);
      s := Turn(stabs, s, m);
      if m < l {
        l := trueM + 1;
        continue;
      }
      anyMatches := true;
      if stabs[m].value < addr {
        left := m;
        l := trueM + 1;
      } else if stabs[m].value > addr {
        right := m - 1;
        r := m - 1;
      } else {
        left := m;
        l := m;
        addr := Succ(addr);
      }
    }
  }

  function Scan(stabs: seq<Stab>, kind: int, left: int, i: int): (m: int)
    requires 0 <= left && i < |stabs|
    ensures m <= i && (m >= left || m == i) && (m > left ==> Typed(stabs, kind, m))
    ensures forall k :: m < k <= i ==> !Typed(stabs, kind, k)
  {
    if i <= left || stabs[i].kind == kind then i else Scan(stabs, kind, left, i - 1)
  }

  function Answer(stabs: seq<Stab>, kind: int, lo: int, hi: int, a0: Address): (int, int)
    requires 0 <= lo && hi < |stabs|
  {
    var s := Halved(stabs, kind, Start(lo, hi, a0));
    if !s.any then (s.left, s.left - 1) else (Scan(stabs, kind, s.left, s.r), s.r)
  }

  // The closing scan for the rightmost entry of the kind.
  method Rightmost(stabs: seq<Stab>, kind: int, left: int, right: int) returns (i: int)
    requires 0 <= left && right < |stabs|
    ensures i == Scan(stabs, kind, left, right)
  {
    i := right;
    while i > left && stabs[i].kind != kind
      invariant i <= right && Scan(stabs, kind, left, i) == Scan(stabs, kind, left, right)
    {
      i := i - 1;
    }
  }

  // stab_binsearch, with *region_left and *region_right as results, on any entries at all. In
  // a sorted region without an entry of the kind the result is empty; with some, it is right
  // exactly as Found says.
  method BinarySearch(stabs: seq<Stab>, lo: int, hi: int, kind: int, a0: Address) returns (left: int, right: int)
    requires 0 <= lo && hi < |stabs|
    ensures (left, right) == Answer(stabs, kind, lo, hi, a0)
    ensures Sorted(stabs, kind, lo, hi) && !AnyTyped(stabs, kind, lo, hi) ==> left == lo && right == lo - 1
    ensures Sorted(stabs, kind, lo, hi) && AnyTyped(stabs, kind, lo, hi) ==>
      (Right(stabs, kind, lo, hi, a0, left, right) <==> Found(stabs, kind, lo, hi, a0))
  {
    var anyMatches;
    left, right, anyMatches := Halve(stabs, lo, hi, kind, a0);
    if !anyMatches {
      right := left - 1;
    } else {
      left := Rightmost(stabs, kind, left, right);
    }
    if lo <= hi && Sorted(stabs, kind, lo, hi) {
      if AnyTyped(stabs, kind, lo, hi) { RightExactly(stabs, kind, lo, hi, a0); } else { EmptyAnswer(stabs, kind, lo, hi, a0); }
    }
  }

  lemma EmptyAnswer(stabs: seq<Stab>, kind: int, lo: int, hi: int, a0: Address)
    requires 0 <= lo <= hi < |stabs| && Sorted(stabs, kind, lo, hi) && !AnyTyped(stabs, kind, lo, hi)
    ensures Answer(stabs, kind, lo, hi, a0) == (lo, lo - 1)
  {
    HalvedKeeps(stabs, kind, lo, hi, a0, Start(lo, hi, a0));
  }

  // ---- When the answer is right ----

  // An answer is right when it brackets the address that was asked for.
  ghost predicate Right(stabs: seq<Stab>, kind: int, lo: int, hi: int, a0: Address, left: int, right: int) {
    Brackets(stabs, kind, lo, hi, a0, a0, left, right)
  }

  // Only one answer is right.
  lemma RightIsUnique(stabs: seq<Stab>, kind: int, lo: int, hi: int, a0: Address, left: int, right: int, left': int, right': int)
    requires 0 <= lo <= hi < |stabs| && AnyTyped(stabs, kind, lo, hi)
    requires Right(stabs, kind, lo, hi, a0, left, right) && Right(stabs, kind, lo, hi, a0, left', right')
    ensures left == left' && right == right'
  {
    assert right == hi || Typed(stabs, kind, right + 1);
    assert right' == hi || Typed(stabs, kind, right' + 1);
    assert right == right';
    var i :| lo <= i <= hi && Typed(stabs, kind, i);
    assert AnyTyped(stabs, kind, lo, right) ==> Typed(stabs, kind, left) && Typed(stabs, kind, left');
  }

  // The turns up to the first hit: the entry hit, and the right end of the region by then.
  function FirstHit(stabs: seq<Stab>, kind: int, s: Region): (h: (int, int))
    requires 0 <= s.l && s.r < |stabs|
    ensures h.0 == -1 || (s.l <= h.0 <= h.1 <= s.r && Typed(stabs, kind, h.0) && stabs[h.0].value == s.addr)
    decreases s.r - s.l + 1
  {
    if s.l > s.r then (-1, -1)
    else
      var m := LastTyped(stabs, kind, s.l, (s.l + s.r) / 2);
      if m >= s.l && stabs[m].value == s.addr then (m, s.r)
      else TurnShrinks(stabs, kind, s, m); FirstHit(stabs, kind, Turn(stabs, s, m))
  }

  lemma HitTurn(stabs: seq<Stab>, kind: int, s: Region, m: int)
    requires 0 <= s.l <= s.r < |stabs| && m == LastTyped(stabs, kind, s.l, (s.l + s.r) / 2)
    ensures m >= s.l && stabs[m].value == s.addr ==> FirstHit(stabs, kind, s) == (m, s.r)
    ensures m < s.l || stabs[m].value != s.addr ==> FirstHit(stabs, kind, s) == FirstHit(stabs, kind, Turn(stabs, s, m))
  {}

  lemma AtUp(stabs: seq<Stab>, kind: int, l: int, r: int, a: Address, m: int, trueM: int)
    requires 0 <= l <= trueM <= r < |stabs| && Sorted(stabs, kind, l, r) && m == LastTyped(stabs, kind, l, trueM)
    requires m < l || stabs[m].value < a
    ensures At(stabs, kind, l, r, a) <==> At(stabs, kind, trueM + 1, r, a)
  {
    forall i | l <= i <= r && Typed(stabs, kind, i) && stabs[i].value == a ensures i > trueM {
      if m >= l { assert Typed(stabs, kind, m); }
    }
  }

  lemma AtDown(stabs: seq<Stab>, kind: int, l: int, r: int, a: Address, m: int)
    requires 0 <= l <= m <= r < |stabs| && Sorted(stabs, kind, l, r) && Typed(stabs, kind, m) && stabs[m].value > a
    ensures At(stabs, kind, l, r, a) <==> At(stabs, kind, l, m - 1, a)
  {
    forall i | l <= i <= r && Typed(stabs, kind, i) && stabs[i].value == a ensures i < m {}
  }

  // There is a hit exactly if there is something to hit.
  lemma {:induction false} HitIffThere(stabs: seq<Stab>, kind: int, s: Region)
    requires 0 <= s.l && s.r < |stabs| && Sorted(stabs, kind, s.l, s.r)
    ensures FirstHit(stabs, kind, s).0 >= 0 <==> At(stabs, kind, s.l, s.r, s.addr)
    decreases s.r - s.l + 1
  {
    if s.l <= s.r {
      var m := LastTyped(stabs, kind, s.l, (s.l + s.r) / 2);
      HitTurn(stabs, kind, s, m);
      if m < s.l || stabs[m].value != s.addr {
        TurnShrinks(stabs, kind, s, m);
        HitIffThere(stabs, kind, Turn(stabs, s, m));
        if m < s.l || stabs[m].value < s.addr {
          AtUp(stabs, kind, s.l, s.r, s.addr, m, (s.l + s.r) / 2);
        } else {
          AtDown(stabs, kind, s.l, s.r, s.addr, m);
        }
      }
    }
  }

  function AfterHit(m: int, r: int, a: Address): Region { Region(m, m, r, true, Succ(a), a) }

  // When the search is right: it hits nothing; or in the region left at the hit there is no
  // entry at the next address; or that next address is the last one, so that hitting it wraps
  // to 0, and the entry just before the one hit happens to be at a0.
  predicate Found(stabs: seq<Stab>, kind: int, lo: int, hi: int, a0: Address)
    requires 0 <= lo && hi < |stabs|
  {
    var first := FirstHit(stabs, kind, Start(lo, hi, a0));
    first.0 < 0 || FoundAfter(stabs, kind, a0, FirstHit(stabs, kind, AfterHit(first.0, first.1, a0)).0)
  }

  predicate FoundAfter(stabs: seq<Stab>, kind: int, a0: Address, m': int) {
    a0 < WORD - 1 && (m' < 0 || (a0 == WORD - 2 && Typed(stabs, kind, m' - 1) && stabs[m' - 1].value == a0))
  }

  lemma {:induction false} Unhit(stabs: seq<Stab>, kind: int, s: Region)
    requires 0 <= s.l && s.r < |stabs| && FirstHit(stabs, kind, s).0 < 0
    ensures Halved(stabs, kind, s).a == s.a && Halved(stabs, kind, s).addr == s.addr
    decreases s.r - s.l + 1
  {
    if s.l <= s.r {
      var m := LastTyped(stabs, kind, s.l, (s.l + s.r) / 2);
      HitTurn(stabs, kind, s, m);
      HalvedTurn(stabs, kind, s, m);
      TurnShrinks(stabs, kind, s, m);
      Unhit(stabs, kind, Turn(stabs, s, m));
    }
  }

  lemma {:induction false} HitReached(stabs: seq<Stab>, kind: int, lo: int, hi: int, a0: Address, s: Region)
    requires 0 <= lo <= hi < |stabs| && Sorted(stabs, kind, lo, hi) && Kept(stabs, kind, lo, hi, a0, s)
    requires FirstHit(stabs, kind, s).0 >= 0
    ensures var h := FirstHit(stabs, kind, s);
      Kept(stabs, kind, lo, hi, a0, AfterHit(h.0, h.1, s.addr)) && Halved(stabs, kind, s) == Halved(stabs, kind, AfterHit(h.0, h.1, s.addr))
    decreases s.r - s.l + 1
  {
    var m := LastTyped(stabs, kind, s.l, (s.l + s.r) / 2);
    HitTurn(stabs, kind, s, m);
    HalvedTurn(stabs, kind, s, m);
    TurnKeeps(stabs, kind, lo, hi, a0, s, m);
    if m < s.l || stabs[m].value != s.addr {
      TurnShrinks(stabs, kind, s, m);
      HitReached(stabs, kind, lo, hi, a0, Turn(stabs, s, m));
    }
  }

  // What the answer is, given the last region.
  ghost predicate Ended(stabs: seq<Stab>, kind: int, lo: int, hi: int, a0: Address, s: Region, left: int, right: int) {
    if Wrapped(stabs, kind, lo, hi, a0, s) then left == right == s.left - 1 else Brackets(stabs, kind, lo, hi, a0, s.a, left, right)
  }

  // What the answer is in a sorted region with an entry of the kind: it brackets the address
  // the search was led to, or, if that was the last one, stops just before an entry there.
  lemma AnswerBrackets(stabs: seq<Stab>, kind: int, lo: int, hi: int, a0: Address) returns (s: Region)
    requires 0 <= lo <= hi < |stabs| && Sorted(stabs, kind, lo, hi) && AnyTyped(stabs, kind, lo, hi)
    ensures s == Halved(stabs, kind, Start(lo, hi, a0)) && Kept(stabs, kind, lo, hi, a0, s) && Consecutive(stabs, kind, lo, hi, a0, s.a)
    ensures var (left, right) := Answer(stabs, kind, lo, hi, a0); Ended(stabs, kind, lo, hi, a0, s, left, right)
  {
    var start := Start(lo, hi, a0);
    assert Narrowed(stabs, kind, lo, hi, a0, start.left, start.l, start.r, start.addr, start.a);
    HalvedKeeps(stabs, kind, lo, hi, a0, start);
    s := Halved(stabs, kind, start);
    if !Wrapped(stabs, kind, lo, hi, a0, s) {
      Finish(stabs, kind, lo, hi, a0, s.left, s.l, s.r, s.addr, s.a, Scan(stabs, kind, s.left, s.r));
    }
  }

  lemma RightExactly(stabs: seq<Stab>, kind: int, lo: int, hi: int, a0: Address)
    requires 0 <= lo <= hi < |stabs| && Sorted(stabs, kind, lo, hi) && AnyTyped(stabs, kind, lo, hi)
    ensures var (left, right) := Answer(stabs, kind, lo, hi, a0);
      Right(stabs, kind, lo, hi, a0, left, right) <==> Found(stabs, kind, lo, hi, a0)
  {
    var start := Start(lo, hi, a0);
    var s := AnswerBrackets(stabs, kind, lo, hi, a0);
    var (left, right) := Answer(stabs, kind, lo, hi, a0);
    assert Narrowed(stabs, kind, lo, hi, a0, start.left, start.l, start.r, start.addr, start.a);
    var m, r := Onwards(stabs, kind, lo, hi, a0, start);
    if m >= 0 {
      RightAfter(stabs, kind, lo, hi, a0, m, r, s, left, right);
    }
  }

  lemma RightAfter(stabs: seq<Stab>, kind: int, lo: int, hi: int, a0: Address, m: int, r: int, s: Region, left: int, right: int)
    requires 0 <= lo <= m <= r <= hi < |stabs| && Sorted(stabs, kind, lo, hi)
    requires Typed(stabs, kind, m) && stabs[m].value == a0 && Kept(stabs, kind, lo, hi, a0, AfterHit(m, r, a0))
    requires s == Halved(stabs, kind, AfterHit(m, r, a0)) && Ended(stabs, kind, lo, hi, a0, s, left, right)
    ensures Right(stabs, kind, lo, hi, a0, left, right) <==> FoundAfter(stabs, kind, a0, FirstHit(stabs, kind, AfterHit(m, r, a0)).0)
  {
    if a0 == WORD - 1 {
      LastAddressHit(stabs, kind, lo, hi, a0, m, r, s, left, right);
    } else {
      var m', r' := Onwards(stabs, kind, lo, hi, a0, AfterHit(m, r, a0));
      RightCases(stabs, kind, lo, hi, a0, m, r, m', r', s, left, right);
    }
  }

  // What a search for the next address does in the region left at the first hit.
  lemma Onwards(stabs: seq<Stab>, kind: int, lo: int, hi: int, a0: Address, s1: Region) returns (m': int, r': int)
    requires 0 <= lo <= hi < |stabs| && Sorted(stabs, kind, lo, hi) && Kept(stabs, kind, lo, hi, a0, s1)
    ensures (m', r') == FirstHit(stabs, kind, s1)
    ensures m' < 0 ==> Halved(stabs, kind, s1).a == s1.a && Halved(stabs, kind, s1).addr == s1.addr
    ensures m' >= 0 ==>
      && s1.l <= m' <= r' <= hi && Typed(stabs, kind, m') && stabs[m'].value == s1.addr
      && Kept(stabs, kind, lo, hi, a0, AfterHit(m', r', s1.addr)) && Halved(stabs, kind, s1) == Halved(stabs, kind, AfterHit(m', r', s1.addr))
  {
    var h := FirstHit(stabs, kind, s1);
    m', r' := h.0, h.1;
    if m' < 0 {
      Unhit(stabs, kind, s1);
    } else {
      HitReached(stabs, kind, lo, hi, a0, s1);
    }
  }

  lemma RightCases(stabs: seq<Stab>, kind: int, lo: int, hi: int, a0: Address, m: int, r: int, m': int, r': int, s: Region, left: int, right: int)
    requires 0 <= lo <= m <= r <= hi < |stabs| && Sorted(stabs, kind, lo, hi) && a0 < WORD - 1
    requires Typed(stabs, kind, m) && stabs[m].value == a0 && Kept(stabs, kind, lo, hi, a0, AfterHit(m, r, a0))
    requires s == Halved(stabs, kind, AfterHit(m, r, a0)) && Ended(stabs, kind, lo, hi, a0, s, left, right)
    requires m' < 0 ==> s.a == a0 && s.addr == a0 + 1
    requires m' >= 0 ==>
      && m <= m' <= r' <= hi && Typed(stabs, kind, m') && stabs[m'].value == a0 + 1
      && Kept(stabs, kind, lo, hi, a0, AfterHit(m', r', a0 + 1)) && s == Halved(stabs, kind, AfterHit(m', r', a0 + 1))
    ensures Right(stabs, kind, lo, hi, a0, left, right) <==> FoundAfter(stabs, kind, a0, m')
  {
    if m' >= 0 {
      SecondHit(stabs, kind, lo, hi, a0, m, m', r', s, left, right);
    }
  }

  lemma LastAddressHit(stabs: seq<Stab>, kind: int, lo: int, hi: int, a0: Address, m: int, r: int, s: Region, left: int, right: int)
    requires 0 <= lo <= m <= r <= hi < |stabs| && Sorted(stabs, kind, lo, hi) && a0 == WORD - 1
    requires Typed(stabs, kind, m) && stabs[m].value == a0 && Kept(stabs, kind, lo, hi, a0, AfterHit(m, r, a0))
    requires s == Halved(stabs, kind, AfterHit(m, r, a0)) && Ended(stabs, kind, lo, hi, a0, s, left, right)
    ensures !Right(stabs, kind, lo, hi, a0, left, right)
  {
    HalvedKeeps(stabs, kind, lo, hi, a0, AfterHit(m, r, a0));
    assert Wrapped(stabs, kind, lo, hi, a0, AfterHit(m, r, a0));
    assert right == m - 1;
  }

  // After a second hit the answer is wrong, but for one case next to the last address.
  lemma SecondHit(stabs: seq<Stab>, kind: int, lo: int, hi: int, a0: Address, m: int, m': int, r': int, s: Region, left: int, right: int)
    requires 0 <= lo <= m <= m' <= r' <= hi < |stabs| && Sorted(stabs, kind, lo, hi) && a0 < WORD - 1
    requires Typed(stabs, kind, m) && stabs[m].value == a0 && Typed(stabs, kind, m') && stabs[m'].value == a0 + 1
    requires Kept(stabs, kind, lo, hi, a0, AfterHit(m', r', a0 + 1))
    requires s == Halved(stabs, kind, AfterHit(m', r', a0 + 1)) && Ended(stabs, kind, lo, hi, a0, s, left, right)
    ensures Right(stabs, kind, lo, hi, a0, left, right) <==> FoundAfter(stabs, kind, a0, m')
  {
    HalvedKeeps(stabs, kind, lo, hi, a0, AfterHit(m', r', a0 + 1));
    if a0 == WORD - 2 {
      assert Wrapped(stabs, kind, lo, hi, a0, AfterHit(m', r', a0 + 1));
      RightBefore(stabs, kind, lo, hi, a0, m, m');
    } else {
      LedPast(stabs, kind, lo, hi, a0, m', s, left, right);
    }
  }

  lemma LedPast(stabs: seq<Stab>, kind: int, lo: int, hi: int, a0: Address, m': int, s: Region, left: int, right: int)
    requires 0 <= lo <= m' <= hi < |stabs| && Sorted(stabs, kind, lo, hi) && a0 < WORD - 2
    requires Typed(stabs, kind, m') && stabs[m'].value == a0 + 1 && s.a > a0 && Ended(stabs, kind, lo, hi, a0, s, left, right)
    ensures !Right(stabs, kind, lo, hi, a0, left, right)
  {
    if !Wrapped(stabs, kind, lo, hi, a0, s) {
      var i :| lo <= i <= right && Typed(stabs, kind, i) && stabs[i].value == s.a;
    } else {
      assert m' <= right;
    }
  }

  lemma RightBefore(stabs: seq<Stab>, kind: int, lo: int, hi: int, a0: Address, m: int, m': int)
    requires 0 <= lo <= m < m' <= hi < |stabs| && Sorted(stabs, kind, lo, hi)
    requires Typed(stabs, kind, m) && stabs[m].value == a0 && Typed(stabs, kind, m') && stabs[m'].value > a0
    ensures Right(stabs, kind, lo, hi, a0, m' - 1, m' - 1) <==> Typed(stabs, kind, m' - 1) && stabs[m' - 1].value == a0
  {
    assert AnyTyped(stabs, kind, lo, m' - 1);
  }

  // In particular it is right if no entry is at a0, or none at the next address.
  lemma AloneIsRight(stabs: seq<Stab>, kind: int, lo: int, hi: int, a0: Address)
    requires 0 <= lo && hi < |stabs| && Sorted(stabs, kind, lo, hi)
    requires !At(stabs, kind, lo, hi, a0) || (a0 < WORD - 1 && !At(stabs, kind, lo, hi, a0 + 1))
    ensures Found(stabs, kind, lo, hi, a0)
  {
    HitIffThere(stabs, kind, Start(lo, hi, a0));
    var h := FirstHit(stabs, kind, Start(lo, hi, a0));
    if h.0 >= 0 { HitIffThere(stabs, kind, AfterHit(h.0, h.1, a0)); }
  }

  // Once the region has an entry of the kind, left > right is never the answer: an address
  // below them all gets an answer that names an entry it is not in.
  lemma NeverReportsNone(stabs: seq<Stab>, kind: int, lo: int, hi: int, a0: Address)
    requires 0 <= lo <= hi < |stabs| && Sorted(stabs, kind, lo, hi) && AnyTyped(stabs, kind, lo, hi)
    ensures var (left, right) := Answer(stabs, kind, lo, hi, a0); left <= right
    ensures (forall i :: lo <= i <= hi && Typed(stabs, kind, i) ==> stabs[i].value > a0) ==>
      var (left, right) := Answer(stabs, kind, lo, hi, a0);
      left == (if lo <= right then lo else lo - 1) && !AnyTyped(stabs, kind, lo, right)
  {
    var s := AnswerBrackets(stabs, kind, lo, hi, a0);
    if forall i :: lo <= i <= hi && Typed(stabs, kind, i) ==> stabs[i].value > a0 {
      AloneIsRight(stabs, kind, lo, hi, a0);
      RightExactly(stabs, kind, lo, hi, a0);
    }
  }

  // Of entries at 5 and 6, a search for 5 answers with the second; of one entry at the last
  // address, a search for it answers with the index before.
  lemma ConsecutiveGoesWrong(stabs: seq<Stab>)
    requires stabs == [Stab(36, 5), Stab(36, 6)]
    ensures Answer(stabs, 36, 0, 1, 5) == (1, 1) && !Right(stabs, 36, 0, 1, 5, 1, 1)
  {
    var s0 := Region(0, 0, 1, false, 5, 5);
    var s1 := Region(0, 0, 1, true, 6, 5);
    var s2 := Region(0, 1, 1, true, 6, 5);
    var s3 := Region(1, 1, 1, true, 7, 6);
    var s4 := Region(1, 2, 1, true, 7, 6);
    assert Turn(stabs, s0, 0) == s1 && Turn(stabs, s1, 0) == s2 && Turn(stabs, s2, 1) == s3 && Turn(stabs, s3, 1) == s4;
    assert Halved(stabs, 36, s4) == s4;
    assert Halved(stabs, 36, s3) == s4;
    assert Halved(stabs, 36, s2) == s4;
    assert Halved(stabs, 36, s1) == s4;
    assert Halved(stabs, 36, s0) == s4;
    assert Typed(stabs, 36, 1) && stabs[1].value == 6;
  }

  lemma TopGoesWrong(stabs: seq<Stab>)
    requires stabs == [Stab(36, 0xffff_ffff)]
    ensures Answer(stabs, 36, 0, 0, 0xffff_ffff) == (-1, -1) && !Right(stabs, 36, 0, 0, 0xffff_ffff, -1, -1)
  {
    var s0 := Region(0, 0, 0, false, 0xffff_ffff, 0xffff_ffff);
    var s1 := Region(0, 0, 0, true, 0, 0xffff_ffff);
    var s2 := Region(0, 0, -1, true, 0, 0xffff_ffff);
    assert Turn(stabs, s0, 0) == s1 && Turn(stabs, s1, 0) == s2;
    assert Halved(stabs, 36, s2) == s2;
    assert Halved(stabs, 36, s1) == s2;
    assert Halved(stabs, 36, s0) == s2;
    assert Typed(stabs, 36, 0);
  }
}
