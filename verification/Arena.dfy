/**
 The client's address arena: device pointers handed to the application are
 addresses in a reserved range whose cursor only moves forward, for the whole
 process and across sessions.
 */
module Arena {
  import opened Arith
  import opened Bytes

  const ALIGNMENT: nat := 0x1_0000
  const GUARD: nat := 0x1_0000
  const ARENA_BYTES: nat := 0x10_0000_0000

  datatype Alloc = Alloc(live: bool, gen: nat, base: nat, size: nat, id: nat)

  /** Memory once handed out, under the identifier the server gave it. */
  datatype Span = Span(base: nat, size: nat, id: nat)

  // ---------------------------------------------------------------------
  // Rounding
  // ---------------------------------------------------------------------

  predicate IsPower(n: nat)
    decreases n
  {
    n == 1 || (n > 1 && n % 2 == 0 && IsPower(n / 2))
  }

  /** The bitwise and of two numbers. */
  function And(a: nat, b: nat): nat
    decreases a
  {
    if a == 0 || b == 0 then 0 else 2 * And(a / 2, b / 2) + if a % 2 == 1 && b % 2 == 1 then 1 else 0
  }

  lemma {:induction false} AndSelf(a: nat)
    ensures And(a, a) == a
  {
    if a > 0 { AndSelf(a / 2); }
  }

  /** The mask test decides powers of two. */
  lemma {:induction false} MaskTest(n: nat)
    requires n > 0
    ensures And(n, n - 1) == 0 <==> IsPower(n)
  {
    if n > 1 {
      if n % 2 == 0 {
        assert (n - 1) / 2 == n / 2 - 1;
        MaskTest(n / 2);
      } else {
        assert (n - 1) / 2 == n / 2;
        AndSelf(n / 2);
      }
    }
  }

  lemma {:induction false} AndOnes(x: nat, top: nat)
    requires IsPower(top) && x < top
    ensures And(x, top - 1) == x
    decreases x
  {
    if x > 0 {
      assert (top - 1) / 2 == top / 2 - 1;
      AndOnes(x / 2, top / 2);
    }
  }

  /** Clearing the bits below a power of two rounds down to its multiples. */
  lemma {:induction false} MaskRoundsDown(x: nat, a: nat, top: nat)
    requires IsPower(a) && IsPower(top) && a <= top && x < top
    ensures And(x, top - a) == x / a * a
    decreases a
  {
    if a == 1 {
      AndOnes(x, top);
    } else {
      HalfPower(a, top);
      MaskRoundsDown(x / 2, a / 2, top / 2);
      HalvedQuotient(x, a);
      assert (top - a) / 2 == top / 2 - a / 2 && (top - a) % 2 == 0;
      if x == 0 || top == a { SmallRoundsToZero(x, a); }
    }
  }

  lemma HalfPower(a: nat, top: nat)
    requires IsPower(a) && IsPower(top) && 1 < a <= top
    ensures a % 2 == 0 && top % 2 == 0 && IsPower(a / 2) && IsPower(top / 2) && a / 2 <= top / 2
  {}

  lemma SmallRoundsToZero(x: nat, a: nat)
    requires x < a
    ensures x / a * a == 0
  {
    DivRemUnique(0, x, a);
  }

  lemma HalvedQuotient(x: nat, a: nat)
    requires a > 1 && a % 2 == 0
    ensures x / a * a == 2 * (x / 2 / (a / 2) * (a / 2))
  {
    var q, r := x / 2 / (a / 2), x / 2 % (a / 2);
    DivRem(x / 2, a / 2);
    TimesIsProduct(q, a / 2);
    TimesIsProduct(q, a);
    assert q * a == 2 * (q * (a / 2)) by { assert a == 2 * (a / 2); }
    DivRemUnique(q, 2 * r + x % 2, a);
  }

  lemma WordIsPower()
    ensures IsPower(TWO64)
  {
    PowerOfBytes(0x1_0000_0000_0000);
    PowerOfBytes(0x1_0000_0000);
    PowerOfBytes(0x1_0000);
    PowerOfBytes(1);
  }

  lemma PowerOfBytes(n: nat)
    requires n > 0
    ensures IsPower(0x1_0000 * n) <== IsPower(n)
  {
    hide IsPower;
    Doubled(n);
    Doubled(2 * n);
    Doubled(4 * n);
    Doubled(8 * n);
    Doubled(0x10 * n);
    Doubled(0x20 * n);
    Doubled(0x40 * n);
    Doubled(0x80 * n);
    Doubled(0x100 * n);
    Doubled(0x200 * n);
    Doubled(0x400 * n);
    Doubled(0x800 * n);
    Doubled(0x1000 * n);
    Doubled(0x2000 * n);
    Doubled(0x4000 * n);
    Doubled(0x8000 * n);
  }

  lemma Doubled(n: nat)
    requires n > 0
    ensures IsPower(n) ==> IsPower(2 * n)
  {
    assert 2 * n / 2 == n;
  }

  lemma RoundUp(v: nat, a: nat)
    requires a > 0
    ensures v <= (v + a - 1) / a * a < v + a
    ensures ((v + a - 1) / a * a) % a == 0
  {
    var q := (v + a - 1) / a;
    TimesIsProduct(q, a);
    DivRemUnique(q, 0, a);
    DivRem(v + a - 1, a);
  }

  /** Adding the mask and clearing its bits gives the least multiple at or above the value. */
  lemma MaskRoundsUp(v: nat, a: nat)
    requires IsPower(a) && v + a <= TWO64
    ensures
      var r := And(v + a - 1, TWO64 - a);
      v <= r < v + a && r % a == 0
  {
    hide And, IsPower;
    assert a > 0 by { PowerPositive(a); }
    WordIsPower();
    MaskRoundsDown(v + a - 1, a, TWO64);
    RoundUp(v, a);
  }

  lemma PowerPositive(a: nat)
    requires IsPower(a)
    ensures a > 0
  {}

  /** The least multiple at or above `value`; refused unless the alignment is a power of two and nothing wraps. */
  function AlignUp(value: u64, alignment: u64): (r: Option<u64>)
    ensures r.None? <==> !IsPower(alignment) || value + alignment > TWO64
    ensures r.Some? ==> value <= r.value < value + alignment && r.value % alignment == 0
  {
    if alignment == 0 then None
    else
      var mask := alignment - 1;
      MaskTest(alignment);
      if And(alignment, mask) != 0 || value > TWO64 - 1 - mask then None
      else
        MaskRoundsUp(value, alignment);
        Some(And(value + mask, TWO64 - 1 - mask))
  }

  // ---------------------------------------------------------------------
  // The layout
  // ---------------------------------------------------------------------

  /** Everything ever handed out lies below the cursor, in order, with a guard after each span. */
  ghost predicate Laid(handed: seq<Span>, start: nat, next: nat)
  {
    && (forall i :: 0 <= i < |handed| ==> start <= handed[i].base && handed[i].base + handed[i].size + GUARD <= start + next)
    && (forall i, j :: 0 <= i < j < |handed| ==> handed[i].base + handed[i].size + GUARD <= handed[j].base)
  }

  function SpanOf(a: Alloc): Span { Span(a.base, a.size, a.id) }

  /** Every live allocation is something handed out, and no two are the same. */
  ghost predicate Backed(slots: seq<Alloc>, handed: seq<Span>)
  {
    && (forall i :: 0 <= i < |slots| && slots[i].live ==> SpanOf(slots[i]) in handed)
    && (forall i, j :: 0 <= i < j < |slots| && slots[i].live && slots[j].live ==> slots[i].base != slots[j].base)
  }

  /** One past the end still belongs to the allocation. */
  predicate Within(p: nat, s: Span) { s.base <= p <= s.base + s.size }

  /** A pointer, even one past the end, lies within at most one span of the whole process lifetime. */
  lemma OneSpan(handed: seq<Span>, start: nat, next: nat, p: nat, s: Span, t: Span)
    requires Laid(handed, start, next) && s in handed && t in handed && Within(p, s) && Within(p, t)
    ensures s == t
  {
    var i :| 0 <= i < |handed| && handed[i] == s;
    var j :| 0 <= j < |handed| && handed[j] == t;
    assert i < j ==> s.base + s.size + GUARD <= t.base;
    assert j < i ==> t.base + t.size + GUARD <= s.base;
  }

  predicate Hit(a: Alloc, gen: nat, p: nat) { a.live && a.gen == gen && a.base <= p <= a.base + a.size }

  /** At most one slot can answer for a pointer. */
  lemma OneHit(slots: seq<Alloc>, handed: seq<Span>, start: nat, next: nat, gen: nat, p: nat, i: nat, j: nat)
    requires Laid(handed, start, next) && Backed(slots, handed)
    requires i < |slots| && j < |slots| && Hit(slots[i], gen, p) && Hit(slots[j], gen, p)
    ensures i == j
  {
    OneSpan(handed, start, next, p, SpanOf(slots[i]), SpanOf(slots[j]));
  }

  // ---------------------------------------------------------------------
  // Resolution
  // ---------------------------------------------------------------------

  datatype Resolved = Resolved(id: nat, offset: nat) | OutOfBounds | NoAllocation

  /** The answer for the allocation a pointer falls in. */
  function Answer(a: Alloc, p: nat, access: nat): Resolved
    requires a.base <= p
  {
    var offset := p - a.base;
    if offset > a.size || access > a.size - offset then OutOfBounds
    else if access > 0 && offset == a.size then OutOfBounds
    else Resolved(a.id, offset)
  }

  /** Live allocations of a generation, keyed by base address. */
  ghost function ByBase(slots: seq<Alloc>, handed: seq<Span>, gen: nat): map<nat, Alloc>
    requires Backed(slots, handed)
  {
    map i | 0 <= i < |slots| && slots[i].live && slots[i].gen == gen :: slots[i].base := slots[i]
  }

  predicate Holds(m: map<nat, Alloc>, b: nat, p: nat) { b in m && b <= p <= b + m[b].size }

  /** What resolution means: look up the one live allocation whose span holds the pointer. */
  ghost predicate Resolves(m: map<nat, Alloc>, p: nat, access: nat, r: Resolved)
  {
    if r.NoAllocation? then forall b: nat :: !Holds(m, b, p)
    else exists b: nat :: Holds(m, b, p) && m[b].base == b && r == Answer(m[b], p, access)
  }

  lemma ByBaseAt(slots: seq<Alloc>, handed: seq<Span>, gen: nat, b: nat) returns (i: nat)
    requires Backed(slots, handed) && b in ByBase(slots, handed, gen)
    ensures i < |slots| && slots[i] == ByBase(slots, handed, gen)[b]
    ensures slots[i].live && slots[i].gen == gen && slots[i].base == b && SpanOf(slots[i]) in handed
  {
    i :| 0 <= i < |slots| && slots[i].live && slots[i].gen == gen && slots[i].base == b;
  }

  /** Resolution has one answer. */
  lemma ResolvesOnce(slots: seq<Alloc>, handed: seq<Span>, start: nat, next: nat, gen: nat, p: nat, access: nat, r: Resolved, r': Resolved)
    requires Laid(handed, start, next) && Backed(slots, handed)
    requires Resolves(ByBase(slots, handed, gen), p, access, r) && Resolves(ByBase(slots, handed, gen), p, access, r')
    ensures r == r'
  {
    hide Laid, Backed, Answer, ByBase;
    var m := ByBase(slots, handed, gen);
    if !r.NoAllocation? && !r'.NoAllocation? {
      var b: nat :| Holds(m, b, p) && m[b].base == b && r == Answer(m[b], p, access);
      var c: nat :| Holds(m, c, p) && m[c].base == c && r' == Answer(m[c], p, access);
      var i := ByBaseAt(slots, handed, gen, b);
      var j := ByBaseAt(slots, handed, gen, c);
      OneSpan(handed, start, next, p, SpanOf(slots[i]), SpanOf(slots[j]));
    }
  }

  /** A pointer into memory once handed out resolves to nothing or to that same memory, never to another. */
  lemma ResolvesToItsSpan(slots: seq<Alloc>, handed: seq<Span>, start: nat, next: nat, gen: nat, p: nat, access: nat, s: Span, r: Resolved)
    requires Laid(handed, start, next) && Backed(slots, handed)
    requires s in handed && Within(p, s) && Resolves(ByBase(slots, handed, gen), p, access, r)
    ensures !r.NoAllocation? ==> exists i :: 0 <= i < |slots| && Hit(slots[i], gen, p) && SpanOf(slots[i]) == s
    ensures r.Resolved? ==> r.id == s.id && r.offset == p - s.base
  {
    hide Laid, Backed, ByBase;
    var m := ByBase(slots, handed, gen);
    if !r.NoAllocation? {
      var b: nat :| Holds(m, b, p) && m[b].base == b && r == Answer(m[b], p, access);
      var i := ByBaseAt(slots, handed, gen, b);
      OneSpan(handed, start, next, p, s, SpanOf(slots[i]));
      assert Hit(slots[i], gen, p);
    }
  }

  // ---------------------------------------------------------------------
  // The process lifetime
  // ---------------------------------------------------------------------

  datatype State = State(slots: seq<Alloc>, next: nat, gen: nat, handed: seq<Span>)

  datatype Change =
    | Commits(i: nat, size: nat, id: nat, span: nat)
    | Frees(i: nat)
    | Ends
    | Starts(gen: nat)

  predicate CanCommit(st: State, i: nat, size: nat, span: nat)
  {
    i < |st.slots| && !st.slots[i].live && size + GUARD <= span && st.next + span <= ARENA_BYTES
  }

  /** What one operation on the table does. */
  function After(start: nat, st: State, ch: Change): State
  {
    match ch
    case Commits(i, size, id, span) =>
      if !CanCommit(st, i, size, span) then st
      else
        var p := start + st.next;
        State(st.slots[i := Alloc(true, st.gen, p, size, id)], st.next + span, st.gen, st.handed + [Span(p, size, id)])
    case Frees(i) =>
      if i < |st.slots| then st.(slots := st.slots[i := st.slots[i].(live := false, id := 0)]) else st
    case Ends =>
      st.(gen := 0, slots := seq(|st.slots|, j requires 0 <= j < |st.slots| =>
            if st.slots[j].gen == st.gen then st.slots[j].(live := false) else st.slots[j]))
    case Starts(g) => st.(gen := g)
  }

  function Lifetime(start: nat, capacity: nat, chs: seq<Change>): State
  {
    if chs == [] then State(seq(capacity, _ => Alloc(false, 0, 0, 0, 0)), 0, 0, [])
    else After(start, Lifetime(start, capacity, chs[..|chs| - 1]), chs[|chs| - 1])
  }

  ghost predicate StateOk(start: nat, st: State)
  {
    st.next <= ARENA_BYTES && Laid(st.handed, start, st.next) && Backed(st.slots, st.handed)
  }

  /** Nothing live starts where `s` started. */
  ghost predicate Released(st: State, s: Span)
  {
    s in st.handed && forall i :: 0 <= i < |st.slots| && st.slots[i].live ==> st.slots[i].base != s.base
  }

  lemma ChangeKeeps(start: nat, st: State, ch: Change)
    requires StateOk(start, st)
    ensures StateOk(start, After(start, st, ch))
  {
    var now := After(start, st, ch);
    match ch
    case Commits(i, size, id, span) =>
      if CanCommit(st, i, size, span) {
        Committed(st.slots, st.handed, start, st.next, i, st.gen, size, id, span);
        hide Laid, Backed;
      }
    case Frees(i) => assert Backed(now.slots, now.handed);
    case Ends => Faded(st.slots, now.slots, st.handed);
    case Starts(_) =>
  }

  lemma {:induction false} LifetimeOk(start: nat, capacity: nat, chs: seq<Change>)
    ensures StateOk(start, Lifetime(start, capacity, chs))
  {
    if chs != [] {
      LifetimeOk(start, capacity, chs[..|chs| - 1]);
      hide After, StateOk;
      ChangeKeeps(start, Lifetime(start, capacity, chs[..|chs| - 1]), chs[|chs| - 1]);
    }
  }

  /** New memory starts at the cursor, above everything released. */
  lemma StaysReleased(start: nat, st: State, ch: Change, s: Span)
    requires StateOk(start, st) && Released(st, s)
    ensures Released(After(start, st, ch), s)
  {
    var k :| 0 <= k < |st.handed| && st.handed[k] == s;
    assert s.base < start + st.next;
  }

  lemma {:induction false} ReleasedForGood(start: nat, capacity: nat, chs: seq<Change>, more: seq<Change>, s: Span)
    requires Released(Lifetime(start, capacity, chs), s)
    ensures Released(Lifetime(start, capacity, chs + more), s)
    decreases |more|
  {
    if more == [] {
      assert chs + more == chs;
    } else {
      var less := more[..|more| - 1];
      ReleasedForGood(start, capacity, chs, less, s);
      assert (chs + more)[..|chs + more| - 1] == chs + less;
      LifetimeOk(start, capacity, chs + less);
      hide After, StateOk, Released;
      StaysReleased(start, Lifetime(start, capacity, chs + less), more[|more| - 1], s);
    }
  }

  lemma FreeReleases(start: nat, st: State, i: nat)
    requires StateOk(start, st) && i < |st.slots| && st.slots[i].live
    ensures Released(After(start, st, Frees(i)), SpanOf(st.slots[i]))
  {
    var now := After(start, st, Frees(i));
    forall j | 0 <= j < |now.slots| && now.slots[j].live ensures now.slots[j].base != st.slots[i].base {
      assert st.slots[j].live && j != i;
    }
  }

  /**
   Once memory has been freed, a pointer into it, one past the end included, resolves
   to nothing for the rest of the process, whatever is allocated, freed, ended or started.
   */
  lemma FreedNeverResolves(start: nat, capacity: nat, chs: seq<Change>, more: seq<Change>, i: nat, p: nat, access: nat, r: Resolved)
    requires i < |Lifetime(start, capacity, chs).slots| && Lifetime(start, capacity, chs).slots[i].live
    requires Within(p, SpanOf(Lifetime(start, capacity, chs).slots[i]))
    requires StateOk(start, Lifetime(start, capacity, chs + [Frees(i)] + more))
    requires
      var end := Lifetime(start, capacity, chs + [Frees(i)] + more);
      Resolves(ByBase(end.slots, end.handed, end.gen), p, access, r)
    ensures r.NoAllocation?
  {
    var st := Lifetime(start, capacity, chs);
    var s := SpanOf(st.slots[i]);
    LifetimeOk(start, capacity, chs);
    FreeReleases(start, st, i);
    assert (chs + [Frees(i)])[..|chs + [Frees(i)]| - 1] == chs;
    assert Lifetime(start, capacity, chs + [Frees(i)]) == After(start, st, Frees(i));
    hide Lifetime, After;
    ReleasedForGood(start, capacity, chs + [Frees(i)], more, s);
    var end := Lifetime(start, capacity, chs + [Frees(i)] + more);
    ResolvesToItsSpan(end.slots, end.handed, start, end.next, end.gen, p, access, s, r);
  }

  // ---------------------------------------------------------------------
  // The allocation table
  // ---------------------------------------------------------------------

  predicate LiveAt(slots: seq<Alloc>, gen: nat, i: nat, p: nat)
  {
    i < |slots| && slots[i].live && slots[i].gen == gen && slots[i].base == p
  }

  class Table {
    const start: nat
    const slots: array<Alloc>
    var next: nat
    var gen: nat
    ghost var handed: seq<Span>

    constructor (start: nat, capacity: nat)
      ensures this.start == start && fresh(slots) && slots.Length == capacity && Valid() && handed == [] && next == 0
    {
      this.start := start;
      slots := new Alloc[capacity](_ => Alloc(false, 0, 0, 0, 0));
      next, gen, handed := 0, 0, [];
    }

    ghost predicate Valid()
      reads this, slots
    {
      next <= ARENA_BYTES && Laid(handed, start, next) && Backed(slots[..], handed)
    }

    ghost function View(): State
      reads this, slots
    {
      State(slots[..], next, gen, handed)
    }

    method FindFree() returns (i: nat)
      ensures i <= slots.Length && (i < slots.Length ==> !slots[i].live)
      ensures i == slots.Length ==> forall j :: 0 <= j < slots.Length ==> slots[j].live
    {
      i := 0;
      while i < slots.Length && slots[i].live
        invariant i <= slots.Length && forall j :: 0 <= j < i ==> slots[j].live
      {
        i := i + 1;
      }
    }

    /** Check that a span of the aligned size and a guard still fits, before anything is asked of the server. */
    method Prepare(size: u64) returns (i: nat, span: nat, ok: bool)
      ensures ok ==> i < slots.Length && !slots[i].live && size + GUARD <= span <= ARENA_BYTES - next
      ensures !ok ==> (forall j :: 0 <= j < slots.Length ==> slots[j].live)
                      || AlignUp(size, ALIGNMENT).None?
                      || AlignUp(size, ALIGNMENT).value + GUARD > ARENA_BYTES - next
    {
      span, ok := 0, false;
      i := FindFree();
      if i == slots.Length { return; }
      var aligned := AlignUp(size, ALIGNMENT);
      if aligned.None? || aligned.value > TWO64 - 1 - GUARD { return; }
      span := aligned.value + GUARD;
      if next > ARENA_BYTES || span > ARENA_BYTES - next { return; }
      ok := true;
    }

    /** Give the new memory the next addresses and move the cursor past its guard. */
    method Commit(i: nat, size: nat, id: nat, span: nat) returns (p: nat)
      requires Valid() && i < slots.Length && !slots[i].live && size + GUARD <= span <= ARENA_BYTES - next
      modifies this`next, this`handed, slots
      ensures Valid() && p == start + old(next) && next == old(next) + span
      ensures handed == old(handed) + [Span(p, size, id)]
      ensures slots[..] == old(slots[..])[i := Alloc(true, gen, p, size, id)]
      ensures View() == After(start, old(View()), Commits(i, size, id, span))
    {
      hide Laid, Backed;
      ghost var was := slots[..];
      p := start + next;
      slots[i] := Alloc(true, gen, p, size, id);
      next := next + span;
      handed := handed + [Span(p, size, id)];
      Committed(was, handed[..|handed| - 1], start, next - span, i, gen, size, id, span);
      assert handed[..|handed| - 1] + [Span(p, size, id)] == handed;
      assert slots[..] == was[i := Alloc(true, gen, p, size, id)];
    }

    /** The linear search is the lookup by address. */
    method Resolve(p: nat, access: nat) returns (r: Resolved)
      requires Valid()
      ensures Resolves(ByBase(slots[..], handed, gen), p, access, r)
    {
      ghost var m := ByBase(slots[..], handed, gen);
      for i := 0 to slots.Length
        invariant forall j :: 0 <= j < i ==> !Hit(slots[j], gen, p)
      {
        if Hit(slots[i], gen, p) {
          r := Answer(slots[i], p, access);
          assert slots[..][i].base in m;
          assert m[slots[i].base] == slots[i] && Holds(m, slots[i].base, p);
          return;
        }
      }
      r := NoAllocation;
      forall b: nat | b in m ensures !Holds(m, b, p) {
        var j := ByBaseAt(slots[..], handed, gen, b);
        assert !Hit(slots[j], gen, p);
      }
    }

    /** The slot whose base is exactly `p`. */
    method FindBase(p: nat) returns (i: nat)
      ensures i <= slots.Length
      ensures i < slots.Length ==> slots[i].live && slots[i].gen == gen && slots[i].base == p
      ensures i == slots.Length ==> forall j :: 0 <= j < slots.Length ==> !(slots[j].live && slots[j].gen == gen && slots[j].base == p)
    {
      i := 0;
      while i < slots.Length && !(slots[i].live && slots[i].gen == gen && slots[i].base == p)
        invariant i <= slots.Length
        invariant forall j :: 0 <= j < i ==> !(slots[j].live && slots[j].gen == gen && slots[j].base == p)
      {
        i := i + 1;
      }
    }

    /** Releasing forgets the allocation; its addresses are not given out again. */
    method Free(i: nat)
      requires Valid() && i < slots.Length
      modifies slots
      ensures Valid() && slots[..] == old(slots[..])[i := old(slots[i]).(live := false, id := 0)]
      ensures View() == After(start, old(View()), Frees(i))
    {
      slots[i] := slots[i].(live := false, id := 0);
    }

    /**
     Releasing an application's pointer: null is fine, otherwise it must be the exact base of a
     live allocation, whose entry stays until the server confirms.
     */
    method FreePointer(p: nat, confirmed: bool) returns (ok: bool)
      requires Valid()
      modifies slots
      ensures Valid()
      ensures ok <==> p == 0 || (confirmed && exists i: nat :: LiveAt(old(slots[..]), gen, i, p))
      ensures !ok || p == 0 ==> View() == old(View())
      ensures ok && p != 0 ==> exists i: nat :: LiveAt(old(slots[..]), gen, i, p) && View() == After(start, old(View()), Frees(i))
      ensures ok && p != 0 ==> forall i: nat :: !LiveAt(slots[..], gen, i, p)
    {
      if p == 0 { return true; }
      var i := FindBase(p);
      if i == slots.Length || !confirmed {
        return false;
      }
      assert LiveAt(old(slots[..]), gen, i, p);
      Free(i);
      assert forall j: nat :: LiveAt(slots[..], gen, j, p) ==> j != i && LiveAt(old(slots[..]), gen, j, p);
      return true;
    }

    /** A failure or shutdown ends the session; the cursor stays where it is. */
    method EndSession()
      requires Valid()
      modifies this`gen, slots
      ensures Valid() && gen == 0
      ensures forall j :: 0 <= j < slots.Length ==> slots[j] == if old(slots[j]).gen == old(gen) then old(slots[j]).(live := false) else old(slots[j])
      ensures View() == After(start, old(View()), Ends)
    {
      for i := 0 to slots.Length
        invariant gen == old(gen)
        invariant forall j :: 0 <= j < i ==> slots[j] == if old(slots[j]).gen == gen then old(slots[j]).(live := false) else old(slots[j])
        invariant forall j :: i <= j < slots.Length ==> slots[j] == old(slots[j])
      {
        if slots[i].gen == gen {
          slots[i] := slots[i].(live := false);
        }
      }
      ghost var was := old(slots[..]);
      assert forall j :: 0 <= j < |was| ==> slots[..][j] == was[j].(live := slots[..][j].live) && (slots[..][j].live ==> was[j].live);
      Faded(was, slots[..], handed);
      gen := 0;
    }

    method StartSession(g: nat)
      requires Valid()
      modifies this`gen
      ensures Valid() && View() == After(start, old(View()), Starts(g))
    {
      gen := g;
    }
  }

  lemma Committed(slots: seq<Alloc>, handed: seq<Span>, start: nat, next: nat, i: nat, gen: nat, size: nat, id: nat, span: nat)
    requires Laid(handed, start, next) && Backed(slots, handed) && i < |slots| && size + GUARD <= span
    ensures
      var p := start + next;
      && Laid(handed + [Span(p, size, id)], start, next + span)
      && Backed(slots[i := Alloc(true, gen, p, size, id)], handed + [Span(p, size, id)])
  {
    var p := start + next;
    var s, h := slots[i := Alloc(true, gen, p, size, id)], handed + [Span(p, size, id)];
    forall j | 0 <= j < |s| && s[j].live ensures SpanOf(s[j]) in h && (j != i ==> s[j].base < p) {
      if j != i {
        assert SpanOf(slots[j]) in handed;
        var k :| 0 <= k < |handed| && handed[k] == SpanOf(slots[j]);
      } else {
        assert h[|handed|] == SpanOf(s[i]);
      }
    }
  }

  lemma Faded(was: seq<Alloc>, now: seq<Alloc>, handed: seq<Span>)
    requires Backed(was, handed) && |now| == |was|
    requires forall j :: 0 <= j < |was| ==> now[j] == was[j].(live := now[j].live) && (now[j].live ==> was[j].live)
    ensures Backed(now, handed)
  {
    forall j | 0 <= j < |now| && now[j].live ensures SpanOf(now[j]) in handed {
      assert SpanOf(was[j]) in handed;
    }
  }
}
