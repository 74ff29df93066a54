/** The pool of coroutines of one thread (rocket/coroutine/coroutine_pool.cpp). */
module CoroutinePools {
  import opened Options

  /** A coroutine, by its id, and whether it is lent out. The slots below `index` hold none. */
  datatype Slot = Slot(cor: Option<nat>, leased: bool)

  /** `nextId` is the thread's coroutine counter. */
  datatype Pool = Pool(slots: seq<Slot>, index: nat, size: nat, nextId: nat)

  ghost predicate WellFormed(p: Pool) {
    && 0 < p.index && |p.slots| == p.size + p.index
    && forall i :: p.index <= i < |p.slots| ==> p.slots[i].cor.Some?
  }

  /** Slot i may be lent: it is not lent yet, and its coroutine is not inside its callback. */
  predicate Free(p: Pool, busy: set<nat>, i: nat)
    requires i < |p.slots|
  {
    p.slots[i].cor.Some? && p.slots[i].cor.value !in busy && !p.slots[i].leased
  }

  ghost predicate HasFree(p: Pool, busy: set<nat>)
    requires WellFormed(p)
  {
    exists i :: p.index <= i < p.size && Free(p, busy, i)
  }

  /** The first free slot from `i` on, or the size of the pool. */
  function FirstFree(p: Pool, busy: set<nat>, i: nat): (k: nat)
    requires p.size <= |p.slots|
    ensures i <= p.size ==> i <= k <= p.size
    ensures forall j :: i <= j < k && j < p.size ==> !Free(p, busy, j)
    ensures k < p.size ==> Free(p, busy, k)
    decreases p.size - i
  {
    if i >= p.size || Free(p, busy, i) then i else FirstFree(p, busy, i + 1)
  }

  /** Each of the new coroutines from the i-th to the n-th replaces slot i and also goes to the end. */
  function Grown(p: Pool, n: nat, i: nat): (g: Pool)
    requires i <= n <= |p.slots|
    ensures |g.slots| == |p.slots| + n - i && g.index == p.index && g.size == p.size
    ensures forall j :: 0 <= j < |g.slots| ==>
              g.slots[j] == if i <= j < n then Slot(Some(p.nextId + j - i), false)
                            else if j < |p.slots| then p.slots[j]
                            else Slot(Some(p.nextId + j - |p.slots|), false)
    decreases n - i
  {
    if i == n then p
    else
      var slot := Slot(Some(p.nextId), false);
      Grown(p.(slots := p.slots[i := slot] + [slot], nextId := p.nextId + 1), n, i + 1)
  }

  function Marked(p: Pool, i: nat, leased: bool): Pool
    requires i < |p.slots|
  {
    p.(slots := p.slots[i := p.slots[i].(leased := leased)])
  }

  /** getCoroutineInstanse. The pool grows to one and a half times its size, rounded down. */
  function Get(p: Pool, busy: set<nat>): (Pool, Option<nat>)
    requires |p.slots| == p.size + p.index && 0 < p.index
  {
    var k := FirstFree(p, busy, p.index);
    if k < p.size then (Marked(p, k, true), p.slots[k].cor)
    else
      var g := Grown(p, p.size / 2, 0).(size := p.size + p.size / 2);
      (g, g.slots[p.size].cor)
  }

  // ---------------------------------------------------------------- leases

  datatype Op = GetOp(busy: set<nat>) | ReturnOp(id: nat)

  datatype Leases = Leases(pool: Pool, held: set<nat>)

  /** Slot i holds coroutine i, and the marked slots are those whose coroutine somebody holds. */
  ghost predicate Inv(w: Leases) {
    && WellFormed(w.pool)
    && (forall i :: 0 <= i < w.pool.index ==> w.pool.slots[i] == Slot(None, false))
    && (forall i :: w.pool.index <= i < |w.pool.slots| ==>
          w.pool.slots[i].cor == Some(i) && (w.pool.slots[i].leased <==> i in w.held))
    && (forall id :: id in w.held ==> w.pool.index <= id < w.pool.size)
  }

  /** Callers give back only what they hold, and ask only while a slot is free. */
  ghost predicate Allowed(w: Leases, op: Op)
    requires WellFormed(w.pool)
  {
    match op
    case GetOp(busy) => HasFree(w.pool, busy)
    case ReturnOp(id) => id in w.held
  }

  ghost function Next(w: Leases, op: Op): Leases
    requires Inv(w) && Allowed(w, op)
  {
    match op
    case GetOp(busy) =>
      var (pool, cor) := Get(w.pool, busy);
      Leases(pool, if cor.Some? then w.held + {cor.value} else w.held)
    case ReturnOp(id) => Leases(Marked(w.pool, id, false), w.held - {id})
  }

  /** Asked while a slot is free, and only then, the pool marks what it hands out; and then that is a
      coroutine nobody holds, outside its callback, the first such, and nothing else in the pool changes;
      otherwise the pool grows by half. It hands out a null pointer exactly if the thread had created more
      coroutines than the pool is large. */
  lemma GetMarksIffFree(w: Leases, busy: set<nat>)
    requires Inv(w)
    ensures var (pool, cor) := Get(w.pool, busy);
            && (cor.Some? <==> w.pool.index <= w.pool.size)
            && (HasFree(w.pool, busy)
                <==> exists i :: w.pool.index <= i < |pool.slots| && pool.slots[i] == Slot(cor, true))
            && (HasFree(w.pool, busy) ==>
                  && cor.Some? && cor.value !in w.held && cor.value !in busy && w.pool.index <= cor.value < w.pool.size
                  && pool == Marked(w.pool, cor.value, true)
                  && forall j :: w.pool.index <= j < cor.value ==> !Free(w.pool, busy, j))
            && (!HasFree(w.pool, busy) ==>
                  pool.size == w.pool.size * 3 / 2 && |pool.slots| == pool.size + pool.index)
  {
    var k := FirstFree(w.pool, busy, w.pool.index);
    var (pool, cor) := Get(w.pool, busy);
    hide FirstFree, Grown;
    if k < w.pool.size {
      assert Free(w.pool, busy, k);
      assert pool.slots[k] == Slot(cor, true);
    } else {
      assert !HasFree(w.pool, busy);
      forall i | w.pool.index <= i < |pool.slots| ensures pool.slots[i] != Slot(cor, true) {
        assert i < |w.pool.slots| && pool.slots[i] == w.pool.slots[i] && pool.slots[i].leased ==> i in w.held;
      }
    }
  }

  /** A coroutine that is given back is held by nobody, its slot is free again as soon as it is outside its
      callback, and no other slot changes. */
  lemma ReturnFrees(w: Leases, id: nat, busy: set<nat>)
    requires Inv(w) && Allowed(w, ReturnOp(id))
    ensures var w' := Next(w, ReturnOp(id));
            && w'.held == w.held - {id}
            && w'.pool == w.pool.(slots := w.pool.slots[id := Slot(Some(id), false)])
            && (id !in busy ==> WellFormed(w'.pool) && HasFree(w'.pool, busy))
  {
    if id !in busy {
      assert Free(Next(w, ReturnOp(id)).pool, busy, id);
    }
  }

  lemma StepKeeps(w: Leases, op: Op)
    requires Inv(w) && Allowed(w, op)
    ensures Inv(Next(w, op)) && Next(w, op).pool.size == w.pool.size
  {
    if op.GetOp? { GetMarksIffFree(w, op.busy); }
  }

  ghost predicate RunAllowed(w: Leases, ops: seq<Op>)
    requires Inv(w)
    decreases |ops|
  {
    ops != [] ==>
      && Allowed(w, ops[0])
      && (StepKeeps(w, ops[0]); RunAllowed(Next(w, ops[0]), ops[1..]))
  }

  ghost function Run(w: Leases, ops: seq<Op>): (w': Leases)
    requires Inv(w) && RunAllowed(w, ops)
    ensures Inv(w')
    decreases |ops|
  {
    if ops == [] then w else StepKeeps(w, ops[0]); Run(Next(w, ops[0]), ops[1..])
  }

  /** The constructor: slots from the next coroutine id on, leaving out the main coroutine's. */
  function Fresh(size: nat, nextId: nat): Pool {
    var index := if nextId == 0 then 1 else nextId;
    var slots := seq(index + size, i => if i < index then Slot(None, false) else Slot(Some(i), false));
    Pool(slots, index, size, index + size)
  }

  /** Over every run of gets and returns of a new pool in which no get finds every slot taken: slot i holds
      coroutine i, and what the next such get hands out is held by nobody and outside its callback. */
  lemma LeasesAreExclusive(size: nat, nextId: nat, ops: seq<Op>, busy: set<nat>)
    requires Inv(Leases(Fresh(size, nextId), {})) && RunAllowed(Leases(Fresh(size, nextId), {}), ops)
    requires HasFree(Run(Leases(Fresh(size, nextId), {}), ops).pool, busy)
    ensures var w := Run(Leases(Fresh(size, nextId), {}), ops);
            && (forall i :: w.pool.index <= i < |w.pool.slots| ==> w.pool.slots[i].cor == Some(i))
            && var cor := Get(w.pool, busy).1;
               cor.Some? && cor.value !in w.held && cor.value !in busy
  {
    GetMarksIffFree(Run(Leases(Fresh(size, nextId), {}), ops), busy);
  }

  lemma FreshInv(size: nat, nextId: nat)
    ensures Inv(Leases(Fresh(size, nextId), {}))
  {
  }

  /** Beyond that, two callers can get the same coroutine: a pool of two lends its one usable slot, grows
      on the second get, and hands out the same coroutine on the second and the third. */
  lemma GrowthLendsTwice()
    ensures var (p1, first) := Get(Fresh(2, 0), {});
            && |p1.slots| == p1.size + p1.index && p1.index == 1
            && var (p2, second) := Get(p1, {});
               && |p2.slots| == p2.size + p2.index && p2.index == 1
               && first == Some(1) && second == Some(2) && Get(p2, {}).1 == Some(2)
  {
    var p := Fresh(2, 0);
    assert FirstFree(p, {}, 1) == 1;
    var p1 := Get(p, {}).0;
    assert FirstFree(p1, {}, 1) == 2;
    var p2 := Get(p1, {}).0;
    assert !Free(p2, {}, 1) && Free(p2, {}, 2);
    assert FirstFree(p2, {}, 1) == 2;
  }

  // ---------------------------------------------------------------- the class

  class CoroutinePool {
    var poolSize: nat
    const index: nat
    var freeCors: seq<Slot>
    /** The thread's coroutine counter. */
    var curCoroutineId: nat

    ghost predicate Valid()
      reads this
    {
      WellFormed(Value())
    }

    function Value(): Pool
      reads this
    {
      Pool(freeCors, index, poolSize, curCoroutineId)
    }

    constructor (size: nat, nextId: nat)
      ensures Valid() && Value() == Fresh(size, nextId)
    {
      var start := nextId;
      if start == 0 {
        start := 1;
      }
      var cors := seq(start + size, _ => Slot(None, false));
      for i := start to start + size
        invariant |cors| == start + size
        invariant forall j :: 0 <= j < |cors| ==>
                    cors[j] == if start <= j < i then Slot(Some(j), false) else Slot(None, false)
      {
        cors := cors[i := Slot(Some(i), false)];
      }
      poolSize, index, freeCors, curCoroutineId := size, start, cors, start + size;
    }

    method GetCoroutineInstanse(busy: set<nat>) returns (cor: Option<nat>)
      requires Valid()
      modifies this
      ensures Valid() && (Value(), cor) == Get(old(Value()), busy)
    {
      var i: nat := index;
      while i < poolSize
        invariant FirstFree(Value(), busy, index) == FirstFree(Value(), busy, i)
        invariant unchanged(this)
      {
        if freeCors[i].cor.value !in busy && !freeCors[i].leased {
          freeCors := freeCors[i := freeCors[i].(leased := true)];
          return freeCors[i].cor;
        }
        i := i + 1;
      }
      var newSize := poolSize * 3 / 2;
      GrowBy(newSize - poolSize);
      var tmp := poolSize;
      poolSize := newSize;
      return freeCors[tmp].cor;
    }

    method GrowBy(n: nat)
      requires n <= |freeCors|
      modifies this`freeCors, this`curCoroutineId
      ensures Value() == Grown(old(Value()), n, 0)
    {
      for i := 0 to n
        invariant n <= |freeCors| && Grown(Value(), n, i) == Grown(old(Value()), n, 0)
      {
        var slot := Slot(Some(curCoroutineId), false);
        curCoroutineId := curCoroutineId + 1;
        freeCors := freeCors[i := slot];
        freeCors := freeCors + [slot];
      }
    }

    method ReturnCoroutine(id: nat)
      requires Valid() && id < |freeCors|
      modifies this`freeCors
      ensures Valid() && Value() == Marked(old(Value()), id, false)
    {
      freeCors := freeCors[id := freeCors[id].(leased := false)];
    }
  }
}
