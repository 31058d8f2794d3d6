/** The list of free physical pages, threaded through pp_link. */
module FreeList {
  const NULL: int := -1

  function Next(list: seq<nat>, k: nat): int {
    if k + 1 < |list| then list[k + 1] else NULL
  }

  // Following `link` from `head` visits exactly `list`, once each; every other link is null.
  ghost predicate Chain(link: seq<int>, head: int, list: seq<nat>) {
    && head == (if list == [] then NULL else list[0])
    && (forall k :: 0 <= k < |list| ==> list[k] < |link|)
    && (forall k {:trigger Next(list, k)} :: 0 <= k < |list| ==> link[list[k]] == Next(list, k))
    && (forall k, l :: 0 <= k < l < |list| ==> list[k] != list[l])
    && (forall p :: 0 <= p < |link| && p !in list ==> link[p] == NULL)
  }

  // Every page is reserved, free, in flight (allocated, not yet counted) or counted.
  ghost predicate Partition(refs: seq<nat>, reserved: set<nat>, list: seq<nat>, inflight: set<nat>) {
    && (forall p :: p in list ==> p < |refs| && p !in reserved && p !in inflight)
    && (forall p :: p in inflight ==> p < |refs| && p !in reserved)
    && (forall p :: 0 <= p < |refs| && p !in reserved ==> (refs[p] == 0 <==> p in list || p in inflight))
  }

  ghost predicate FreeInv(refs: seq<nat>, reserved: set<nat>, link: seq<int>, head: int,
                          list: seq<nat>, inflight: set<nat>) {
    |link| == |refs| && Chain(link, head, list) && Partition(refs, reserved, list, inflight)
  }

  lemma PopChain(link: seq<int>, head: int, list: seq<nat>)
    requires Chain(link, head, list) && list != []
    ensures 0 <= head < |link| && Chain(link[head := NULL], link[head], list[1..])
    ensures forall p :: p in list <==> p == head || p in list[1..]
    ensures head !in list[1..]
  {
    var rest := list[1..];
    assert list == [list[0]] + rest;
    assert link[list[0]] == Next(list, 0);
    forall k {:trigger Next(rest, k)} | 0 <= k < |rest|
      ensures rest[k] < |link| && rest[k] != head && link[rest[k]] == Next(rest, k)
    {
      assert rest[k] == list[k + 1] && Next(rest, k) == Next(list, k + 1);
    }
    forall k | 0 <= k < |rest| ensures rest[k] < |link| && rest[k] != head { assert Next(rest, k) == Next(rest, k); }
    forall k, l | 0 <= k < l < |rest| ensures rest[k] != rest[l] { assert rest[k] == list[k + 1] && rest[l] == list[l + 1]; }
  }

  lemma Pop(refs: seq<nat>, reserved: set<nat>, link: seq<int>, head: int, list: seq<nat>, inflight: set<nat>)
    requires FreeInv(refs, reserved, link, head, list, inflight) && list != []
    ensures head == list[0] && 0 <= head < |link| && refs[head] == 0 && head !in reserved
    ensures FreeInv(refs, reserved, link[head := NULL], link[head], list[1..], inflight + {head})
  {
    PopChain(link, head, list);
    assert list[0] in list;
  }

  lemma PushAt(link: seq<int>, head: int, list: seq<nat>, p: nat, k: nat)
    requires Chain(link, head, list) && p < |link| && p !in list && k <= |list|
    ensures ([p] + list)[k] < |link| && (k > 0 ==> ([p] + list)[k] != p)
    ensures link[p := head][([p] + list)[k]] == Next([p] + list, k)
  {
    if k > 0 {
      assert ([p] + list)[k] == list[k - 1] && list[k - 1] in list;
      assert Next([p] + list, k) == Next(list, k - 1);
    }
  }

  lemma PushChain(link: seq<int>, head: int, list: seq<nat>, p: nat)
    requires Chain(link, head, list) && p < |link| && p !in list
    ensures Chain(link[p := head], p, [p] + list)
  {
    var longer := [p] + list;
    assert forall k :: 0 <= k < |longer| ==> longer[k] < |link|;
    forall k {:trigger Next(longer, k)} | 0 <= k < |longer|
      ensures link[p := head][longer[k]] == Next(longer, k)
    {
      PushAt(link, head, list, p, k);
    }
    forall k, l | 0 <= k < l < |longer| ensures longer[k] != longer[l] {
      PushAt(link, head, list, p, l);
      if k > 0 { assert longer[k] == list[k - 1] && longer[l] == list[l - 1]; }
    }
    assert longer[0] == p && forall x :: x in list ==> x in longer;
  }

  lemma Push(refs: seq<nat>, reserved: set<nat>, link: seq<int>, head: int, list: seq<nat>, inflight: set<nat>, p: nat)
    requires FreeInv(refs, reserved, link, head, list, inflight) && p in inflight
    ensures p < |link| && refs[p] == 0 && link[p] == NULL
    ensures FreeInv(refs, reserved, link[p := head], p, [p] + list, inflight - {p})
  {
    PushChain(link, head, list, p);
    forall q ensures q in [p] + list <==> q == p || q in list {}
  }

  // A count rises from zero: the page leaves flight.
  lemma Landed(refs: seq<nat>, reserved: set<nat>, link: seq<int>, head: int, list: seq<nat>, inflight: set<nat>,
               p: nat, refs': seq<nat>)
    requires FreeInv(refs, reserved, link, head, list, inflight)
    requires p < |refs| && p !in list && |refs'| == |refs| && refs'[p] > 0
    requires forall q :: 0 <= q < |refs| && q != p ==> refs'[q] == refs[q]
    ensures FreeInv(refs', reserved, link, head, list, inflight - {p})
  {}

  // A count falls to zero: the page is in flight until it is put on the list.
  lemma Dropped(refs: seq<nat>, reserved: set<nat>, link: seq<int>, head: int, list: seq<nat>, inflight: set<nat>,
                p: nat, refs': seq<nat>)
    requires FreeInv(refs, reserved, link, head, list, inflight)
    requires p < |refs| && p !in reserved && refs[p] > 0 && |refs'| == |refs|
    requires forall q :: 0 <= q < |refs| && q != p ==> refs'[q] == refs[q]
    ensures FreeInv(refs', reserved, link, head, list, if refs'[p] == 0 then inflight + {p} else inflight)
  {}

  // Counts of reserved pages play no part.
  lemma Ignored(refs: seq<nat>, reserved: set<nat>, link: seq<int>, head: int, list: seq<nat>, inflight: set<nat>,
                p: nat, refs': seq<nat>)
    requires FreeInv(refs, reserved, link, head, list, inflight)
    requires p in reserved && |refs'| == |refs|
    requires forall q :: 0 <= q < |refs| && q != p ==> refs'[q] == refs[q]
    ensures FreeInv(refs', reserved, link, head, list, inflight)
  {}

  // A page loses a reference, and goes on the list with its last one.
  lemma Released(refs: seq<nat>, reserved: set<nat>, link: seq<int>, head: int, list: seq<nat>, inflight: set<nat>,
                 p: nat, refs': seq<nat>)
    requires FreeInv(refs, reserved, link, head, list, inflight)
    requires p < |refs| && p !in reserved && refs[p] > 0 && |refs'| == |refs| && refs'[p] == refs[p] - 1
    requires forall q :: 0 <= q < |refs| && q != p ==> refs'[q] == refs[q]
    ensures p < |link| && link[p] == NULL && p !in list && p !in inflight
    ensures refs[p] != 1 ==> FreeInv(refs', reserved, link, head, list, inflight)
    ensures refs[p] == 1 ==> FreeInv(refs', reserved, link[p := head], p, [p] + list, inflight)
  {
    Dropped(refs, reserved, link, head, list, inflight, p, refs');
    if refs[p] == 1 {
      Push(refs', reserved, link, head, list, inflight + {p}, p);
      assert inflight + {p} - {p} == inflight;
    }
  }

  ghost function CountedPages(refs: seq<nat>, reserved: set<nat>): set<nat> {
    set p: nat | 0 <= p < |refs| && p !in reserved && refs[p] > 0
  }

  // Conservation: free, in-flight, reserved and counted pages make up all of memory.
  lemma Conservation(refs: seq<nat>, reserved: set<nat>, link: seq<int>, head: int, list: seq<nat>, inflight: set<nat>)
    requires FreeInv(refs, reserved, link, head, list, inflight)
    requires forall p :: p in reserved ==> p < |refs|
    ensures |list| + |inflight| + |reserved| + |CountedPages(refs, reserved)| == |refs|
  {
    Distinct(list);
    EachIsOne(refs, reserved, list, inflight);
    FourParts(Elements(list), inflight, reserved, CountedPages(refs, reserved));
  }

  lemma EachIsOne(refs: seq<nat>, reserved: set<nat>, list: seq<nat>, inflight: set<nat>)
    requires Partition(refs, reserved, list, inflight) && forall p :: p in reserved ==> p < |refs|
    ensures Elements(list) !! inflight && Elements(list) !! reserved && inflight !! reserved
    ensures Elements(list) !! CountedPages(refs, reserved) && inflight !! CountedPages(refs, reserved) && reserved !! CountedPages(refs, reserved)
    ensures |Elements(list) + inflight + reserved + CountedPages(refs, reserved)| == |refs|
  {
    var union := Elements(list) + inflight + reserved + CountedPages(refs, reserved);
    assert union == Below(|refs|);
  }

  lemma FourParts(a: set<nat>, b: set<nat>, c: set<nat>, d: set<nat>)
    requires a !! b && a !! c && b !! c && a !! d && b !! d && c !! d
    ensures |a + b + c + d| == |a| + |b| + |c| + |d|
  {
    assert |a + b| == |a| + |b|;
    assert (a + b) !! c;
    assert |a + b + c| == |a + b| + |c|;
    assert (a + b + c) !! d;
  }

  ghost function Elements(s: seq<nat>): set<nat> { set p | p in s }

  ghost function Below(n: nat): (s: set<nat>)
    ensures |s| == n && forall p: nat :: p in s <==> p < n
  {
    if n == 0 then {} else Below(n - 1) + {n - 1}
  }

  lemma {:induction false} Distinct(s: seq<nat>)
    requires forall k, l :: 0 <= k < l < |s| ==> s[k] != s[l]
    ensures |Elements(s)| == |s|
  {
    if s != [] {
      var rest := s[1..];
      forall k, l | 0 <= k < l < |rest| ensures rest[k] != rest[l] {
        assert rest[k] == s[k + 1] && rest[l] == s[l + 1];
      }
      Distinct(rest);
      assert s[0] !in rest;
      assert s == [s[0]] + rest;
      assert Elements(s) == Elements(rest) + {s[0]};
    }
  }
}
