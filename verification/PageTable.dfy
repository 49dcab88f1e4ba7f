// The page table of memory.c: a hash table with linear probing that grows.
module PageTable {
  import opened Arith
  import opened Bits

  // An entry: the page number and the data, the low 8 bits.  The empty entry is all zeros.
  datatype Entry = Entry(page: nat, data: bv8)

  const EMPTY: Entry := Entry(0, 0)
  const HASH_FACTOR: nat := 11400714819323198486
  const WORD: nat := 0x1_0000_0000_0000_0000

  lemma Pow2Big(a: nat)
    ensures a >= 53 ==> Pow2(a) >= 0x20_0000_0000_0000
  {
    Pow64();
    if a >= 53 { Pow2Mono(53, a); }
  }

  function ShiftRight(x: nat, k: nat): nat {
    QuotientSmall(x, Pow2(k));
    Quotient(x, Pow2(k))
  }

  lemma ShiftBound(x: nat, k: nat)
    ensures ShiftRight(x, k) * Pow2(k) <= x
  {
    var q, r := Floor(x, Pow2(k));
  }

  // Multiplicative hashing of a page number.
  function Hash(page: nat, shift: nat): nat {
    ShiftRight(page * HASH_FACTOR % WORD, shift)
  }

  // The hash value is an index of the table.
  lemma HashBelow(page: nat, shift: nat)
    requires shift <= 64
    ensures Hash(page, shift) < Pow2(64 - shift)
  {
    Pow64();
    Pow2Sum(64 - shift, shift);
    ShiftBound(page * HASH_FACTOR % WORD, shift);
    LessFactor(Hash(page, shift), Pow2(64 - shift), Pow2(shift));
  }

  // ---- Probing ----

  // (h + 1) & mask, for a mask that is a power of 2 less 1.
  function Next(h: nat, size: nat): nat {
    if h + 1 == size then 0 else h + 1
  }

  // The d-th slot that is tried from h.
  function Slot(h: nat, d: nat, size: nat): (i: nat)
    requires h < size && d < size
    ensures i < size
  {
    if h + d < size then h + d else h + d - size
  }

  // Every slot is met within one turn.
  lemma SlotMet(h: nat, i: nat, size: nat) returns (d: nat)
    requires h < size && i < size
    ensures d < size && Slot(h, d, size) == i
  {
    d := if i >= h then i - h else i + size - h;
  }

  // The page is d slots from its home h, and no slot before is empty.
  ghost predicate Away(s: seq<Entry>, page: nat, h: nat, d: nat)
    requires h < |s| && d < |s|
  {
    && s[Slot(h, d, |s|)] != EMPTY && s[Slot(h, d, |s|)].page == page
    && forall e :: 0 <= e < d ==> s[Slot(h, e, |s|)] != EMPTY
  }

  ghost predicate Found(s: seq<Entry>, page: nat, h: nat)
    requires h < |s|
  {
    exists d: nat :: d < |s| && Away(s, page, h, d)
  }

  // The entry in slot i is what m says, and can be found.
  ghost predicate EntryOk(s: seq<Entry>, m: map<nat, bv8>, shift: nat, i: nat)
    requires i < |s|
  {
    s[i] != EMPTY ==>
      && s[i].page > 0 && s[i].page in m && m[s[i].page] == s[i].data
      && forall j :: 0 <= j < |s| && s[j] != EMPTY && s[j].page == s[i].page ==> j == i
  }

  // The table holds m.
  ghost predicate Holds(s: seq<Entry>, m: map<nat, bv8>, shift: nat) {
    && s != [] && shift < 64 && |s| == Pow2(64 - shift)
    && (forall i :: 0 <= i < |s| ==> EntryOk(s, m, shift, i))
    && (forall p :: p in m ==> p > 0 && Hash(p, shift) < |s| && Found(s, p, Hash(p, shift)))
  }

  function Count(s: seq<Entry>): nat {
    if s == [] then 0 else Count(s[..|s| - 1]) + if s[|s| - 1] == EMPTY then 0 else 1
  }

  lemma {:induction false} CountSet(s: seq<Entry>, i: nat, e: Entry)
    requires i < |s|
    ensures Count(s[i := e]) + (if s[i] == EMPTY then 0 else 1) == Count(s) + if e == EMPTY then 0 else 1
    ensures Count(s) <= |s|
  {
    var n := |s| - 1;
    var t := s[i := e];
    if i == n {
      assert t[..n] == s[..n];
      if n > 0 { CountSet(s[..n], 0, s[0]); }
    } else {
      assert t[..n] == s[..n][i := e];
      CountSet(s[..n], i, e);
    }
  }

  lemma {:induction false} SomeEmpty(s: seq<Entry>) returns (i: nat)
    requires Count(s) < |s|
    ensures i < |s| && s[i] == EMPTY
  {
    var n := |s| - 1;
    if s[n] == EMPTY { i := n; } else { i := SomeEmpty(s[..n]); }
  }

  // ---- What the probing finds ----

  ghost predicate Tried(s: seq<Entry>, page: nat, h: nat, d: nat)
    requires h < |s| && d <= |s|
  {
    forall e :: 0 <= e < d ==> s[Slot(h, e, |s|)] != EMPTY && s[Slot(h, e, |s|)].page != page
  }

  lemma AbsentAt(s: seq<Entry>, m: map<nat, bv8>, shift: nat, p: nat, d: nat)
    requires Holds(s, m, shift) && Hash(p, shift) < |s| && d < |s| && Tried(s, p, Hash(p, shift), d)
    requires s[Slot(Hash(p, shift), d, |s|)] == EMPTY
    ensures p !in m
  {
  }

  lemma PresentAt(s: seq<Entry>, m: map<nat, bv8>, shift: nat, i: nat)
    requires Holds(s, m, shift) && i < |s| && s[i] != EMPTY
    ensures s[i].page in m && m[s[i].page] == s[i].data && s[i].page > 0
  {
    assert EntryOk(s, m, shift, i);
  }

  // A new page goes to the first empty slot.
  lemma InsertOk(s: seq<Entry>, m: map<nat, bv8>, shift: nat, p: nat, d: nat, data: bv8)
    requires Holds(s, m, shift) && Hash(p, shift) < |s| && d < |s| && Tried(s, p, Hash(p, shift), d)
    requires s[Slot(Hash(p, shift), d, |s|)] == EMPTY && p > 0 && p !in m
    ensures Holds(s[Slot(Hash(p, shift), d, |s|) := Entry(p, data)], m[p := data], shift)
  {
    var i := Slot(Hash(p, shift), d, |s|);
    var s', m' := s[i := Entry(p, data)], m[p := data];
    forall j | 0 <= j < |s'| ensures EntryOk(s', m', shift, j) {
      assert EntryOk(s, m, shift, j);
      if s'[j] != EMPTY && j != i {
        assert s[j].page in m;
      }
      forall k | 0 <= k < |s'| && s'[k] != EMPTY && s'[k].page == s'[j].page && s'[j] != EMPTY ensures k == j {
        assert EntryOk(s, m, shift, k);
      }
    }
    assert Away(s', p, Hash(p, shift), d);
    forall q | q in m' ensures q > 0 && Hash(q, shift) < |s'| && Found(s', q, Hash(q, shift)) {
      if q != p { StillFound(s, s', q, Hash(q, shift), i); }
    }
  }

  lemma StillFound(s: seq<Entry>, s': seq<Entry>, q: nat, h: nat, i: nat)
    requires h < |s| == |s'| && i < |s| && s' == s[i := s'[i]] && s'[i] != EMPTY && Found(s, q, h)
    requires s[i] == EMPTY || s[i].page == s'[i].page
    ensures Found(s', q, h)
  {
    var f: nat :| f < |s| && Away(s, q, h, f);
    assert Away(s', q, h, f);
  }

  lemma UpdateOk(s: seq<Entry>, m: map<nat, bv8>, shift: nat, i: nat, data: bv8)
    requires Holds(s, m, shift) && i < |s| && s[i] != EMPTY
    ensures Holds(s[i := Entry(s[i].page, data)], m[s[i].page := data], shift) && s[i].page in m && s[i].page > 0
  {
    var s', m' := s[i := Entry(s[i].page, data)], m[s[i].page := data];
    assert EntryOk(s, m, shift, i);
    forall j | 0 <= j < |s'| ensures EntryOk(s', m', shift, j) {
      assert EntryOk(s, m, shift, j);
    }
    forall q | q in m' ensures q > 0 && Hash(q, shift) < |s'| && Found(s', q, Hash(q, shift)) {
      StillFound(s, s', q, Hash(q, shift), i);
    }
  }

  lemma HoldsSize(s: seq<Entry>, m: map<nat, bv8>, shift: nat)
    requires Holds(s, m, shift)
    ensures s != [] && shift < 64 && |s| == Pow2(64 - shift)
  {
  }

  lemma NothingHeld(s: seq<Entry>, shift: nat)
    requires s != [] && shift < 64 && |s| == Pow2(64 - shift) && forall i :: 0 <= i < |s| ==> s[i] == EMPTY
    ensures Holds(s, map[], shift) && Count(s) == 0
  {
    NoneCounted(s);
  }

  lemma {:induction false} NoneCounted(s: seq<Entry>)
    requires forall i :: 0 <= i < |s| ==> s[i] == EMPTY
    ensures Count(s) == 0
  {
    if s != [] { NoneCounted(s[..|s| - 1]); }
  }

  class PageTable {
    const room: nat -> bool          // is there memory for so many entries?
    var size: nat
    var shift: nat
    var occupancy: nat
    var entries: array<Entry>
    ghost var contents: map<nat, bv8>

    ghost predicate Valid()
      reads this, entries
    {
      && Holds(entries[..], contents, shift) && size == entries.Length >= 2
      && occupancy == Count(entries[..]) < size
      && forall n: nat :: room(n) ==> n < WORD
    }

    // caml_page_table_initialize, when there is memory.
    constructor (pages: nat, room: nat -> bool)
      requires 1 <= pages < 0x10_0000_0000_0000 && forall n: nat :: room(n) ==> n < WORD
      ensures Valid() && contents == map[] && fresh(entries) && this.room == room
      ensures 2 * pages <= size <= 4 * pages
    {
      this.room := room;
      var sz: nat, sh: nat := 1, 64;
      while sz < 2 * pages
        invariant sh <= 64 && sz == Pow2(64 - sh) && (sz < 4 * pages || sz == 1)
        invariant 10 < sh
        decreases 4 * pages - sz
      {
        Pow2Big(64 - sh);
        sz, sh := 2 * sz, sh - 1;
      }
      size, shift, occupancy, contents := sz, sh, 0, map[];
      entries := new Entry[sz](_ => EMPTY);
      new;
      NothingHeld(entries[..], shift);
    }

    // caml_page_table_lookup
    method Lookup(page: nat) returns (data: bv8)
      requires Valid()
      ensures data == if page in contents then contents[page] else 0
    {
      HashBelow(page, shift);
      ghost var s := entries[..];
      var h := Hash(page, shift);
      ghost var home, d: nat, end := h, 0, 0;
      end := SomeEmpty(s);
      end := SlotMet(h, end, size);
      var e := entries[h];
      while e.page != page
        invariant d <= end && h == Slot(home, d, size) && e == s[h] && Tried(s, page, home, d)
        decreases end - d
      {
        if e == EMPTY {
          AbsentAt(s, contents, shift, page, d);
          return 0;
        }
        h := Next(h, size);
        d := d + 1;
        e := entries[h];
      }
      if e == EMPTY {
        AbsentAt(s, contents, shift, page, d);
      } else {
        PresentAt(s, contents, shift, h);
      }
      data := e.data;
    }

    // The entries found to be taken from h on; then an empty one, or the page's own.
    method Probe(page: nat) returns (h: nat, ghost d: nat)
      requires Valid() && page > 0
      ensures h < size && Hash(page, shift) < size && d < size && h == Slot(Hash(page, shift), d, size)
      ensures Tried(entries[..], page, Hash(page, shift), d)
      ensures entries[h] == EMPTY || entries[h].page == page
    {
      HashBelow(page, shift);
      h, d := Hash(page, shift), 0;
      ghost var home := h;
      ghost var end := SomeEmpty(entries[..]);
      end := SlotMet(h, end, size);
      while entries[h] != EMPTY && entries[h].page != page
        invariant d <= end && h == Slot(home, d, size) && Tried(entries[..], page, home, d)
        decreases end - d
      {
        h := Next(h, size);
        d := d + 1;
      }
    }

    // caml_page_table_resize
    method Resize() returns (ok: bool)
      requires Valid()
      modifies `size, `shift, `entries
      ensures Valid()
      ensures ok == room(2 * old(size))
      ensures if ok then size == 2 * old(size) && fresh(entries) else size == old(size) && entries == old(entries)
    {
      hide Holds;
      hide Count;
      hide Half;
      hide Pow2;
      HoldsSize(entries[..], contents, shift);
      if !room(2 * size) { return false; }
      ok := true;
      ghost var old_s, m: map<nat, bv8> := entries[..], map[];
      Doubled(size, shift);
      var newEntries := new Entry[2 * size](_ => EMPTY);
      var newShift := shift - 1;
      NothingHeld(newEntries[..], newShift);
      HalfNone(old_s, contents);
      for i := 0 to size
        invariant entries[..] == old_s && size == old(size) && |old_s| == size && shift == old(shift)
        invariant Holds(newEntries[..], m, newShift) && Count(newEntries[..]) == Count(old_s[..i])
        invariant Half(old_s, contents, m, i)
      {
        HalfStep(old_s, contents, m, shift, i);
        var e := entries[i];
        if e != EMPTY {
          Rehash(newEntries, newShift, e, m);
          m := m[e.page := e.data];
        }
      }
      assert old_s[..size] == old_s;
      HalfAll(old_s, contents, m, shift);
      size, shift, entries := 2 * size, newShift, newEntries;
    }

    // An entry that moves to the new table.
    static method Rehash(a: array<Entry>, shift: nat, e: Entry, ghost m: map<nat, bv8>)
      requires Holds(a[..], m, shift) && Count(a[..]) < a.Length && e.page !in m && e.page > 0
      modifies a
      ensures Holds(a[..], m[e.page := e.data], shift) && Count(a[..]) == Count(old(a[..])) + 1
    {
      hide Holds;
      hide Hash;
      hide Tried;
      hide Slot;
      hide Count;
      var h, d := FreeSlot(a, shift, e.page, m);
      InsertOk(a[..], m, shift, e.page, d, e.data);
      CountSet(a[..], h, e);
      a[h] := e;
      assert a[..] == old(a[..])[h := e];
    }

    // The first empty slot from the home of a page that is not there.
    static method FreeSlot(a: array<Entry>, shift: nat, page: nat, ghost m: map<nat, bv8>) returns (h: nat,
                           ghost d: nat)
      requires Holds(a[..], m, shift) && Count(a[..]) < a.Length && page !in m
      ensures h < a.Length && Hash(page, shift) < a.Length && d < a.Length && h == Slot(Hash(page, shift), d, a.Length)
      ensures a[h] == EMPTY && Tried(a[..], page, Hash(page, shift), d)
    {
      HashBelow(page, shift);
      h, d := Hash(page, shift), 0;
      ghost var home := h;
      ghost var end := SomeEmpty(a[..]);
      end := SlotMet(h, end, a.Length);
      while a[h] != EMPTY
        invariant d <= end && h == Slot(home, d, a.Length) && Tried(a[..], page, home, d)
        decreases end - d
      {
        PresentAt(a[..], m, shift, h);
        h := Next(h, a.Length);
        d := d + 1;
      }
    }

    // caml_page_table_modify
    method Modify(page: nat, toClear: bv8, toSet: bv8) returns (ok: bool)
      requires Valid() && page > 0
      modifies `size, `shift, `entries, `occupancy, `contents, entries
      ensures Valid() && (entries == old(entries) || fresh(entries))
      ensures contents == if ok then Changed(old(contents), page, toClear, toSet) else old(contents)
      ensures !ok ==> !room(2 * size)
    {
      hide Holds;
      hide Count;
      hide Changed;
      if occupancy * 2 >= size {
        ok := Resize();
        if !ok { return; }
      }
      ok := true;
      Put(page, toClear, toSet);
    }

    // The loop of caml_page_table_modify.
    method Put(page: nat, toClear: bv8, toSet: bv8)
      requires Valid() && page > 0 && occupancy + 1 < size
      modifies `occupancy, `contents, entries
      ensures Valid() && contents == Changed(old(contents), page, toClear, toSet)
    {
      hide Holds;
      hide Count;
      hide Hash;
      hide Tried;
      hide Slot;
      hide Changed;
      var h, d := Probe(page);
      ghost var s := entries[..];
      ChangedIs(contents, page, toClear, toSet);
      if entries[h] == EMPTY {
        AbsentAt(s, contents, shift, page, d);
        InsertOk(s, contents, shift, page, d, toSet);
        Store(h, page, toSet);
        occupancy := occupancy + 1;
      } else {
        PresentAt(s, contents, shift, h);
        var data := Flags(entries[h].data, toClear, toSet);
        UpdateOk(s, contents, shift, h, data);
        Store(h, page, data);
      }
      contents := Changed(contents, page, toClear, toSet);
    }

    // caml_page_table_add and caml_page_table_remove, for the pages of the bytes from start to end.
    method ModifyRange(start: nat, end: nat, toClear: bv8, toSet: bv8) returns (ok: bool, ghost done: nat)
      requires Valid() && PAGE_SIZE <= start < end
      modifies `size, `shift, `entries, `occupancy, `contents, entries
      ensures Valid() && (entries == old(entries) || fresh(entries))
      ensures RangeIs(old(contents), contents, start / PAGE_SIZE, done, toClear, toSet)
      ensures if ok then done == (end - 1) / PAGE_SIZE + 1 else done <= (end - 1) / PAGE_SIZE && !room(2 * size)
    {
      hide Holds;
      hide Count;
      hide RangeIs;
      hide Flags;
      var p: nat := start / PAGE_SIZE;
      var last := (end - 1) / PAGE_SIZE;
      FirstPage(start, end);
      done := p;
      RangeNone(contents, p, toClear, toSet);
      while p <= last
        invariant Valid() && (entries == old(entries) || fresh(entries)) && 0 < p == done <= last + 1
        invariant RangeIs(old(contents), contents, start / PAGE_SIZE, p, toClear, toSet)
      {
        ghost var m := contents;
        ok := Modify(p, toClear, toSet);
        if !ok { return false, p; }
        RangeMore(old(contents), m, contents, start / PAGE_SIZE, p, toClear, toSet);
        p := p + 1;
        done := p;
      }
      ok := true;
    }

    method Store(h: nat, page: nat, data: bv8)
      requires h < entries.Length && page > 0
      modifies entries
      ensures entries[..] == old(entries[..])[h := Entry(page, data)]
      ensures Count(entries[..]) == Count(old(entries[..])) + if old(entries[h]) == EMPTY then 1 else 0
    {
      CountSet(entries[..], h, Entry(page, data));
      entries[h] := Entry(page, data);
      assert entries[..] == old(entries[..])[h := Entry(page, data)];
    }
  }

  function Get(m: map<nat, bv8>, page: nat): bv8 {
    if page in m then m[page] else 0
  }

  // (x & ~toClear) | toSet
  function Flags(x: bv8, toClear: bv8, toSet: bv8): bv8 {
    (x & !toClear) | toSet
  }

  function Changed(m: map<nat, bv8>, page: nat, toClear: bv8, toSet: bv8): map<nat, bv8> {
    m[page := Flags(Get(m, page), toClear, toSet)]
  }

  lemma ChangedIs(m: map<nat, bv8>, page: nat, toClear: bv8, toSet: bv8)
    ensures Changed(m, page, toClear, toSet) == m[page := if page in m then Flags(m[page], toClear, toSet) else toSet]
  {
  }

  // m is what the first n entries hold of all.
  ghost predicate Half(s: seq<Entry>, all: map<nat, bv8>, m: map<nat, bv8>, n: nat)
    requires n <= |s|
  {
    && (forall p :: p in m ==> p in all && m[p] == all[p] && HeldBelow(s, p, n))
    && (forall j :: 0 <= j < n && s[j] != EMPTY ==> s[j].page in m)
  }

  ghost predicate HeldBelow(s: seq<Entry>, p: nat, n: nat)
    requires n <= |s|
  {
    exists j :: 0 <= j < n && s[j] != EMPTY && s[j].page == p
  }

  lemma HalfNone(s: seq<Entry>, all: map<nat, bv8>)
    ensures Half(s, all, map[], 0) && Count(s[..0]) == 0
  {
  }

  lemma HalfStep(s: seq<Entry>, all: map<nat, bv8>, m: map<nat, bv8>, shift: nat, n: nat)
    requires Holds(s, all, shift) && n < |s| && Half(s, all, m, n)
    ensures Half(s, all, if s[n] == EMPTY then m else m[s[n].page := s[n].data], n + 1)
    ensures s[n] != EMPTY ==> s[n].page !in m && s[n].page > 0
    ensures Count(s[..n + 1]) == Count(s[..n]) + if s[n] == EMPTY then 0 else 1
    ensures Count(s[..n]) <= n
  {
    assert s[..n + 1][..n] == s[..n];
    assert EntryOk(s, all, shift, n);
    CountMost(s[..n]);
  }

  lemma {:induction false} CountMost(s: seq<Entry>)
    ensures Count(s) <= |s|
  {
    if s != [] { CountMost(s[..|s| - 1]); }
  }

  lemma HalfAll(s: seq<Entry>, all: map<nat, bv8>, m: map<nat, bv8>, shift: nat)
    requires Holds(s, all, shift) && Half(s, all, m, |s|)
    ensures m == all
  {
    forall p | p in all ensures p in m {
      var d: nat :| d < |s| && Away(s, p, Hash(p, shift), d);
    }
  }

  lemma Doubled(size: nat, shift: nat)
    requires shift < 64 && size == Pow2(64 - shift) && 2 * size < WORD
    ensures shift >= 1 && Pow2(64 - (shift - 1)) == 2 * size
  {
    Pow64();
  }

  // ---- Ranges of pages ----

  const PAGE_SIZE: nat := 4096

  ghost predicate PageIs(m: map<nat, bv8>, m': map<nat, bv8>, inside: bool, p: nat, toClear: bv8, toSet: bv8) {
    Get(m', p) == if inside then Flags(Get(m, p), toClear, toSet) else Get(m, p)
  }

  // The pages from lo to hi - 1 are changed, and no other.
  ghost predicate RangeIs(m: map<nat, bv8>, m': map<nat, bv8>, lo: nat, hi: nat, toClear: bv8, toSet: bv8) {
    forall p: nat, inside :: (inside <==> lo <= p < hi) ==> PageIs(m, m', inside, p, toClear, toSet)
  }

  lemma FirstPage(start: nat, end: nat)
    requires PAGE_SIZE <= start < end
    ensures 0 < start / PAGE_SIZE <= (end - 1) / PAGE_SIZE
  {
  }

  lemma RangeNone(m: map<nat, bv8>, p: nat, toClear: bv8, toSet: bv8)
    ensures RangeIs(m, m, p, p, toClear, toSet)
  {
  }

  lemma RangeMore(m0: map<nat, bv8>, m: map<nat, bv8>, m': map<nat, bv8>, lo: nat, hi: nat, toClear: bv8, toSet: bv8)
    requires RangeIs(m0, m, lo, hi, toClear, toSet) && lo <= hi && m' == Changed(m, hi, toClear, toSet)
    ensures RangeIs(m0, m', lo, hi + 1, toClear, toSet)
  {
    hide Flags;
    forall p: nat, inside | inside <==> lo <= p < hi + 1 ensures PageIs(m0, m', inside, p, toClear, toSet) {
      var before := lo <= p < hi;
      assert PageIs(m0, m, before, p, toClear, toSet);
    }
  }

  lemma FlagSet(x: bv8, kind: bv8)
    ensures Flags(x, 0, kind) & kind == kind && Flags(x, 0, kind) & !kind == x & !kind
    ensures x & kind == 0 ==> Flags(Flags(x, 0, kind), kind, 0) == x
  {
  }

  // After pages were added with a kind, they and no others have that flag too.
  lemma AddedIs(m: map<nat, bv8>, m': map<nat, bv8>, lo: nat, hi: nat, kind: bv8, p: nat)
    requires RangeIs(m, m', lo, hi, 0, kind)
    ensures if lo <= p < hi then Get(m', p) & kind == kind && Get(m', p) & !kind == Get(m, p) & !kind
            else Get(m', p) == Get(m, p)
  {
    hide Flags;
    var inside := lo <= p < hi;
    assert PageIs(m, m', inside, p, 0, kind);
    FlagSet(Get(m, p), kind);
  }

  // A change sets the flags to be set, clears the others that are to be cleared, and keeps the rest.
  lemma FlagsMeaning(x: bv8, toClear: bv8, toSet: bv8)
    ensures var y := Flags(x, toClear, toSet);
      y & toSet == toSet && y & toClear & !toSet == 0 && y & !toClear & !toSet == x & !toClear & !toSet
  {
  }

  // After pages were removed with a kind, they do not have that flag, whatever they had.
  lemma RemovedIs(m: map<nat, bv8>, m': map<nat, bv8>, lo: nat, hi: nat, kind: bv8, p: nat)
    requires RangeIs(m, m', lo, hi, kind, 0)
    ensures if lo <= p < hi then Get(m', p) & kind == 0 && Get(m', p) & !kind == Get(m, p) & !kind
            else Get(m', p) == Get(m, p)
  {
    var inside := lo <= p < hi;
    assert PageIs(m, m', inside, p, kind, 0);
  }

  // When pages are added and removed again, all is as it was.
  lemma AddThenRemove(m: map<nat, bv8>, m1: map<nat, bv8>, m2: map<nat, bv8>, lo: nat, hi: nat, kind: bv8, p: nat)
    requires RangeIs(m, m1, lo, hi, 0, kind) && RangeIs(m1, m2, lo, hi, kind, 0)
    requires lo <= p < hi ==> Get(m, p) & kind == 0
    ensures Get(m2, p) == Get(m, p)
  {
    hide Flags;
    var inside := lo <= p < hi;
    assert PageIs(m, m1, inside, p, 0, kind) && PageIs(m1, m2, inside, p, kind, 0);
    FlagSet(Get(m, p), kind);
  }
}
