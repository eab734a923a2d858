/** The root directory: an array of 44-byte records inside a data block, refining a finite map. */
module Directory {
  import opened Bytes
  import opened Bitmap

  const MAX_FILE_NAME: nat := 40
  const ENTRY_SIZE: nat := 44

  /** A `dir_entry_t`; `inum == -1` labels an empty one. */
  datatype Slot = Slot(name: seq<byte>, inum: int)

  function SlotAt(mem: seq<byte>, at: nat): (s: Slot)
    requires at + ENTRY_SIZE <= |mem|
    ensures |s.name| == MAX_FILE_NAME
  {
    Slot(mem[at..at + MAX_FILE_NAME], DecodeInt(mem[at + MAX_FILE_NAME..at + ENTRY_SIZE]))
  }

  /** The block at `base`, seen as `dir_entry_t[n]`. */
  function Slots(mem: seq<byte>, base: nat, n: nat): (s: seq<Slot>)
    requires base + ENTRY_SIZE * n <= |mem|
    ensures |s| == n
    ensures forall i | 0 <= i < n :: s[i] == SlotAt(mem, base + ENTRY_SIZE * i)
  {
    seq(n, i requires 0 <= i < n => SlotAt(mem, base + ENTRY_SIZE * i))
  }

  // ---------------------------------------------------------------- the scans of state.c

  /** `find_in_dir` from slot `i` on. */
  function FindFrom(slots: seq<Slot>, query: CStr, i: nat): int
    requires i <= |slots| && forall k | 0 <= k < |slots| :: |slots[k].name| == MAX_FILE_NAME
    decreases |slots| - i
  {
    if i == |slots| then -1
    else if slots[i].inum != -1 && StrncmpEq(slots[i].name, query, MAX_FILE_NAME) then slots[i].inum
    else FindFrom(slots, query, i + 1)
  }

  /** The slot `add_dir_entry` fills, searching from `i`, or -1. */
  function EmptyFrom(slots: seq<Slot>, i: nat): (r: int)
    requires i <= |slots|
    ensures r == -1 || i <= r < |slots|
    decreases |slots| - i
  {
    if i == |slots| then -1 else if slots[i].inum == -1 then i else EmptyFrom(slots, i + 1)
  }

  /** The slot `clear_dir_entry` clears, searching from `i`, or -1: it looks at names only. */
  function MatchFrom(mem: seq<byte>, base: nat, n: nat, query: CStr, i: nat): (r: int)
    requires base + ENTRY_SIZE * n <= |mem| && i <= n
    ensures r == -1 || i <= r < n
    decreases n - i
  {
    if i == n then -1
    else if StrcmpEq(mem[base + ENTRY_SIZE * i..], query) then i
    else MatchFrom(mem, base, n, query, i + 1)
  }

  // ---------------------------------------------------------------- what a directory means

  predicate Live(s: Slot) { s.inum != -1 }

  function NameOf(s: Slot): CStr { UpToNul(s.name) }

  predicate ValidName(n: CStr) { 1 <= |n| < MAX_FILE_NAME }

  /** A live slot holds a valid name, zero-padded; an empty slot may hold anything. */
  predicate SlotOk(s: Slot) {
    |s.name| == MAX_FILE_NAME &&
    (Live(s) ==> ValidName(NameOf(s)) && s.name == Pad(NameOf(s), MAX_FILE_NAME))
  }

  predicate Blank(s: Slot) { |s.name| == MAX_FILE_NAME && s.name[0] == 0 }

  /**
   * Live names are distinct, and an empty slot in front of a live one is blank: it was live before, since
   * slots are filled first-fit, and clearing zeroes the name. Slots never used keep what `malloc` left there.
   */
  ghost predicate DirOk(slots: seq<Slot>) {
    (forall i | 0 <= i < |slots| :: SlotOk(slots[i])) &&
    (forall i, j | 0 <= i < j < |slots| && Live(slots[j]) ::
       if Live(slots[i]) then NameOf(slots[i]) != NameOf(slots[j]) else Blank(slots[i]))
  }

  ghost function DirMap(slots: seq<Slot>): map<CStr, int>
    requires DirOk(slots)
  {
    map i | 0 <= i < |slots| && Live(slots[i]) :: NameOf(slots[i]) := slots[i].inum
  }

  /** Searching the slots is looking the name up in the map, for queries of every length. */
  lemma FindRefinesLookup(slots: seq<Slot>, query: CStr)
    requires DirOk(slots)
    ensures FindFrom(slots, query, 0) == if query in DirMap(slots) then DirMap(slots)[query] else -1
  {
    FindFromHits(slots, query, 0);
  }

  lemma {:induction false} FindFromHits(slots: seq<Slot>, query: CStr, i: nat)
    requires DirOk(slots) && i <= |slots|
    requires forall k | 0 <= k < i && Live(slots[k]) :: NameOf(slots[k]) != query
    ensures FindFrom(slots, query, i) == if query in DirMap(slots) then DirMap(slots)[query] else -1
    decreases |slots| - i
  {
    if i < |slots| {
      assert SlotOk(slots[i]);
      if Live(slots[i]) {
        StrncmpIsEquality(NameOf(slots[i]), MAX_FILE_NAME, query);
      }
      if !Live(slots[i]) || NameOf(slots[i]) != query {
        FindFromHits(slots, query, i + 1);
      }
    }
  }

  /** Filling the first empty slot is inserting into the map. */
  lemma FillRefinesInsert(slots: seq<Slot>, i: nat, n: CStr, inum: int)
    requires DirOk(slots) && i < |slots| && !Live(slots[i])
    requires forall k | 0 <= k < i :: Live(slots[k])
    requires ValidName(n) && n !in DirMap(slots) && inum != -1
    ensures DirOk(slots[i := Slot(Pad(n, MAX_FILE_NAME), inum)])
    ensures DirMap(slots[i := Slot(Pad(n, MAX_FILE_NAME), inum)]) == DirMap(slots)[n := inum]
  {
    UpToNulPad(n, MAX_FILE_NAME);
    var after := slots[i := Slot(Pad(n, MAX_FILE_NAME), inum)];
    assert DirOk(after) by {
      hide DirMap;
      FreshName(slots, n);
      assert forall k | 0 <= k < |slots| && k != i :: after[k] == slots[k];
    }
    AddToMap(slots, i, after);
  }

  /** No live slot holds a name that is not in the map. */
  lemma FreshName(slots: seq<Slot>, n: CStr)
    requires DirOk(slots) && n !in DirMap(slots)
    ensures forall k | 0 <= k < |slots| && Live(slots[k]) :: NameOf(slots[k]) != n
  {
  }

  lemma AddToMap(slots: seq<Slot>, i: nat, after: seq<Slot>)
    requires DirOk(slots) && i < |slots| && !Live(slots[i])
    requires DirOk(after) && |after| == |slots| && Live(after[i])
    requires forall k | 0 <= k < |slots| && k != i :: after[k] == slots[k]
    ensures DirMap(after) == DirMap(slots)[NameOf(after[i]) := after[i].inum]
  {
  }

  /** Clearing a live slot is removing its name from the map. */
  lemma ClearRefinesRemove(slots: seq<Slot>, i: nat)
    requires DirOk(slots) && i < |slots| && Live(slots[i])
    ensures DirOk(slots[i := Slot(Zeros(MAX_FILE_NAME), -1)])
    ensures DirMap(slots[i := Slot(Zeros(MAX_FILE_NAME), -1)]) == DirMap(slots) - {NameOf(slots[i])}
  {
    var after := slots[i := Slot(Zeros(MAX_FILE_NAME), -1)];
    assert DirOk(after) by {
      hide DirMap;
      assert forall k | 0 <= k < |slots| && k != i :: after[k] == slots[k];
    }
    RemoveFromMap(slots, i, after);
  }

  /** A name in the map has a live slot, and a live slot's name is in the map. */
  lemma SlotOfName(slots: seq<Slot>, n: CStr) returns (k: nat)
    requires DirOk(slots) && n in DirMap(slots)
    ensures k < |slots| && Live(slots[k]) && NameOf(slots[k]) == n && DirMap(slots)[n] == slots[k].inum
  {
    hide SlotOk, NameOf, Blank;
    k :| 0 <= k < |slots| && Live(slots[k]) && NameOf(slots[k]) == n;
  }

  lemma NameOfSlot(slots: seq<Slot>, k: nat)
    requires DirOk(slots) && k < |slots| && Live(slots[k])
    ensures NameOf(slots[k]) in DirMap(slots) && DirMap(slots)[NameOf(slots[k])] == slots[k].inum
  {
    hide SlotOk, NameOf, Blank;
  }

  lemma RemoveFromMap(slots: seq<Slot>, i: nat, after: seq<Slot>)
    requires DirOk(slots) && i < |slots| && Live(slots[i])
    requires DirOk(after) && |after| == |slots| && !Live(after[i])
    requires forall k | 0 <= k < |slots| && k != i :: after[k] == slots[k]
    ensures DirMap(after) == DirMap(slots) - {NameOf(slots[i])}
  {
    hide DirMap, DirOk, NameOf;
    var n := NameOf(slots[i]);
    forall q | q in DirMap(slots) && q != n
      ensures q in DirMap(after) && DirMap(after)[q] == DirMap(slots)[q]
    {
      var k := SlotOfName(slots, q);
      NameOfSlot(after, k);
    }
    forall q | q in DirMap(after)
      ensures q in DirMap(slots) && q != n
    {
      var k := SlotOfName(after, q);
      NameOfSlot(slots, k);
      NamesApart(slots, k, i);
    }
  }

  lemma NamesApart(slots: seq<Slot>, j: nat, k: nat)
    requires DirOk(slots) && j < |slots| && k < |slots| && j != k && Live(slots[j]) && Live(slots[k])
    ensures NameOf(slots[j]) != NameOf(slots[k])
  {
    hide SlotOk, NameOf, Blank;
  }

  /** The clearing scan, which ignores `d_inumber`, stops at the slot holding the name. */
  lemma {:induction false} MatchHits(mem: seq<byte>, base: nat, n: nat, query: CStr, i: nat, at: nat)
    requires base + ENTRY_SIZE * n <= |mem| && i <= at < n
    requires DirOk(Slots(mem, base, n))
    requires Live(SlotAt(mem, base + ENTRY_SIZE * at)) && NameOf(SlotAt(mem, base + ENTRY_SIZE * at)) == query
    ensures MatchFrom(mem, base, n, query, i) == at
    decreases n - i
  {
    var slots := Slots(mem, base, n);
    assert SlotOk(slots[i]) && SlotOk(slots[at]);
    var tail := mem[base + ENTRY_SIZE * i..];
    assert tail == slots[i].name + tail[MAX_FILE_NAME..];
    if Live(slots[i]) {
      StrcmpIsEquality(NameOf(slots[i]), MAX_FILE_NAME, tail[MAX_FILE_NAME..], query);
    } else {
      StrcmpAtNul(tail, query);
    }
    if i < at {
      MatchHits(mem, base, n, query, i + 1, at);
    }
  }

  lemma {:induction false} EmptyFromSpec(slots: seq<Slot>, i: nat)
    requires i <= |slots|
    ensures EmptyFrom(slots, i) == -1 <==> forall k | i <= k < |slots| :: Live(slots[k])
    ensures var e := EmptyFrom(slots, i);
            e != -1 ==> (!Live(slots[e]) && forall k | i <= k < e :: Live(slots[k]))
    decreases |slots| - i
  {
    if i < |slots| && Live(slots[i]) {
      EmptyFromSpec(slots, i + 1);
    }
  }

  ghost function LiveNames(slots: seq<Slot>): map<int, CStr> {
    map i | 0 <= i < |slots| && Live(slots[i]) :: NameOf(slots[i])
  }

  lemma LiveNamesAreKeys(slots: seq<Slot>)
    requires DirOk(slots)
    ensures LiveNames(slots).Values == DirMap(slots).Keys
  {
    forall n | n in DirMap(slots)
      ensures n in LiveNames(slots).Values
    {
      var i :| 0 <= i < |slots| && Live(slots[i]) && NameOf(slots[i]) == n;
      assert LiveNames(slots)[i] == n;
    }
  }

  lemma DirSize(slots: seq<Slot>)
    requires DirOk(slots)
    ensures |DirMap(slots)| == |LiveNames(slots).Keys|
  {
    LiveNamesAreKeys(slots);
    InjectiveSize(LiveNames(slots));
  }

  lemma LiveCount(slots: seq<Slot>)
    ensures |LiveNames(slots).Keys| <= |slots|
    ensures |LiveNames(slots).Keys| == |slots| <==> forall k | 0 <= k < |slots| :: Live(slots[k])
  {
    var live := LiveNames(slots).Keys;
    assert forall i :: i in live <==> 0 <= i < |slots| && Live(slots[i]);
    SubsetSize(live, Range(|slots|));
    if forall k | 0 <= k < |slots| :: Live(slots[k]) {
      assert live == Range(|slots|);
    } else {
      var k :| 0 <= k < |slots| && !Live(slots[k]);
      assert k in Range(|slots|) && k !in live;
    }
  }

  /** `add_dir_entry` finds no room exactly when the map has as many names as there are slots. */
  lemma FullIffMapFull(slots: seq<Slot>)
    requires DirOk(slots)
    ensures EmptyFrom(slots, 0) == -1 <==> |DirMap(slots)| == |slots|
    ensures |DirMap(slots)| <= |slots|
  {
    EmptyFromSpec(slots, 0);
    DirSize(slots);
    LiveCount(slots);
  }

  // ---------------------------------------------------------------- records in memory

  /** The bytes of a record. */
  function EncodeSlot(s: Slot): (b: seq<byte>)
    requires |s.name| == MAX_FILE_NAME && -1 <= s.inum <= INT_MAX
    ensures |b| == ENTRY_SIZE
  {
    s.name + EncodeInt(s.inum)
  }

  /** Writing record `i` changes that slot and no other. */
  lemma PutSlot(mem: seq<byte>, base: nat, n: nat, i: nat, s: Slot)
    requires base + ENTRY_SIZE * n <= |mem| && i < n
    requires |s.name| == MAX_FILE_NAME && -1 <= s.inum <= INT_MAX
    ensures Slots(Splice(mem, base + ENTRY_SIZE * i, EncodeSlot(s)), base, n) == Slots(mem, base, n)[i := s]
  {
    var at := base + ENTRY_SIZE * i;
    var after := Splice(mem, at, EncodeSlot(s));
    IntRoundTrip(s.inum);
    assert after[at..at + MAX_FILE_NAME] == s.name;
    assert after[at + MAX_FILE_NAME..at + ENTRY_SIZE] == EncodeInt(s.inum);
    forall k | 0 <= k < n && k != i
      ensures SlotAt(after, base + ENTRY_SIZE * k) == SlotAt(mem, base + ENTRY_SIZE * k)
    {
      SlotFrame(mem, at, EncodeSlot(s), base + ENTRY_SIZE * k);
    }
  }

  lemma SlotFrame(mem: seq<byte>, at: nat, w: seq<byte>, slot: nat)
    requires at + |w| <= |mem| && slot + ENTRY_SIZE <= |mem|
    requires slot + ENTRY_SIZE <= at || at + |w| <= slot
    ensures SlotAt(Splice(mem, at, w), slot) == SlotAt(mem, slot)
  {
    hide Splice, DecodeInt;
    SpliceOutside(mem, at, w, slot, slot + MAX_FILE_NAME);
    SpliceOutside(mem, at, w, slot + MAX_FILE_NAME, slot + ENTRY_SIZE);
  }

  /** A copy outside the directory's block leaves every record alone. */
  lemma SlotsFrame(mem: seq<byte>, at: nat, w: seq<byte>, base: nat, n: nat)
    requires at + |w| <= |mem| && base + ENTRY_SIZE * n <= |mem|
    requires base + ENTRY_SIZE * n <= at || at + |w| <= base
    ensures Slots(Splice(mem, at, w), base, n) == Slots(mem, base, n)
  {
    forall k | 0 <= k < n
      ensures SlotAt(Splice(mem, at, w), base + ENTRY_SIZE * k) == SlotAt(mem, base + ENTRY_SIZE * k)
    {
      SlotFrame(mem, at, w, base + ENTRY_SIZE * k);
    }
  }

  /** `inode_create` labels the first `k` records empty and leaves the rest of their bytes as they were. */
  function LabelEmpty(mem: seq<byte>, base: nat, k: nat): (r: seq<byte>)
    requires base + ENTRY_SIZE * k <= |mem|
    ensures |r| == |mem|
  {
    if k == 0 then mem
    else Splice(LabelEmpty(mem, base, k - 1), base + ENTRY_SIZE * (k - 1) + MAX_FILE_NAME, EncodeInt(-1))
  }

  lemma {:induction false} LabelEmptySlot(mem: seq<byte>, base: nat, k: nat, i: nat)
    requires base + ENTRY_SIZE * k <= |mem| && base + ENTRY_SIZE * (i + 1) <= |mem|
    ensures SlotAt(LabelEmpty(mem, base, k), base + ENTRY_SIZE * i)
         == (var s := SlotAt(mem, base + ENTRY_SIZE * i); if i < k then s.(inum := -1) else s)
  {
    hide EncodeInt, DecodeInt, Splice;
    if k > 0 {
      LabelEmptySlot(mem, base, k - 1, i);
      var was := LabelEmpty(mem, base, k - 1);
      var slot := base + ENTRY_SIZE * (k - 1);
      if i == k - 1 {
        IntRoundTrip(-1);
        SpliceOutside(was, slot + MAX_FILE_NAME, EncodeInt(-1), slot, slot + MAX_FILE_NAME);
        SpliceInside(was, slot + MAX_FILE_NAME, EncodeInt(-1));
      } else {
        SlotFrame(was, slot + MAX_FILE_NAME, EncodeInt(-1), base + ENTRY_SIZE * i);
      }
    }
  }

  /** When every slot is labelled empty, whatever its name field holds, the directory is a valid empty one. */
  lemma EmptyDirectory(slots: seq<Slot>)
    requires forall i | 0 <= i < |slots| :: !Live(slots[i]) && |slots[i].name| == MAX_FILE_NAME
    ensures DirOk(slots) && DirMap(slots) == map[]
  {
  }
}
