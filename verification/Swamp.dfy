/** The swap server: one file cut into page-sized slots, and one account per process. */
module Swamp {
  import opened Base

  /** How many files the server has: the file of every account is the one file there is. */
  const FILES: nat := 1

  datatype Config = Config(allocation: Allocation, maxSlots: nat)

  /** `index` is the page number kept in the slot, or -1 when the slot is free. */
  datatype Slot = Slot(index: int, pid: nat)

  /** `count` is the number of slots the server believes the process owns. */
  datatype Account = Account(pid: nat, count: int)

  datatype State = State(slots: seq<Slot>, file: seq<Bytes>, accounts: seq<Account>)

  datatype WriteReply = Stored | Refused | Crashed

  /** `Unknown` is the answer -1; `Silence` is the branch that never sends anything. */
  datatype ReadReply = Content(bytes: Bytes) | Unknown | Silence

  // ---------------------------------------------------------------- lookups

  function IsFree(): Slot -> bool {
    (s: Slot) => s.index == -1
  }

  function OwnedBy(pid: nat): Slot -> bool {
    (s: Slot) => s.index != -1 && s.pid == pid
  }

  function Keeps(p: PageId): Slot -> bool {
    (s: Slot) => s.pid == p.pid && s.index == p.num
  }

  function Of(pid: nat): Account -> bool {
    (a: Account) => a.pid == pid
  }

  function FreeSlot(slots: seq<Slot>): nat {
    First(slots, IsFree())
  }

  function SlotOf(slots: seq<Slot>, p: PageId): nat {
    First(slots, Keeps(p))
  }

  function AccountOf(accounts: seq<Account>, pid: nat): nat {
    First(accounts, Of(pid))
  }

  predicate HasRoom(st: State) {
    FreeSlot(st.slots) < |st.slots|
  }

  predicate Stores(st: State, p: PageId) {
    SlotOf(st.slots, p) < |st.slots|
  }

  /** What the server would answer for a page. */
  function Fetch(st: State, p: PageId): Option<Bytes> {
    var slot := SlotOf(st.slots, p);
    if slot < |st.slots| && slot < |st.file| then Some(st.file[slot]) else None
  }

  // ---------------------------------------------------------------- requests

  /** Opens an account for a process that has none. */
  function Registered(accounts: seq<Account>, pid: nat): seq<Account> {
    if AccountOf(accounts, pid) < |accounts| then accounts else accounts + [Account(pid, 0)]
  }

  function Adjusted(accounts: seq<Account>, pid: nat, delta: int): seq<Account> {
    seq(|accounts|, i requires 0 <= i < |accounts| =>
      if accounts[i].pid == pid then accounts[i].(count := accounts[i].count + delta) else accounts[i])
  }

  /**
    The quota test.  Under the fixed policy only the first account is compared with the quota; for any
    other process the server indexes the list of file names with the position of an account, and dies
    as soon as there are two accounts and one file.
   */
  function Admission(cfg: Config, slots: nat, accounts: seq<Account>, pid: nat): WriteReply {
    if cfg.allocation.Dynamic? || |accounts| == 0 then Stored
    else if accounts[0].pid == pid then
      if accounts[0].count < cfg.maxSlots then Stored else Refused
    else if |accounts| > 1 || cfg.maxSlots == 0 then Crashed
    else if 1 < slots / cfg.maxSlots then Stored else Refused
  }

  function Write(cfg: Config, st: State, p: PageId, page: Bytes): (State, WriteReply)
  {
    var slot := FreeSlot(st.slots);
    if slot == |st.slots| then (st, Crashed)
    else
      var accounts := Registered(st.accounts, p.pid);
      var reply := Admission(cfg, |st.slots|, accounts, p.pid);
      if reply != Stored then (st.(accounts := accounts), reply)
      else
        (State(st.slots[slot := Slot(p.num, p.pid)], Put(st.file, slot, page), Adjusted(accounts, p.pid, 1)), Stored)
  }

  /** A read that finds the page also gives the slot back. */
  function Read(st: State, p: PageId): (State, ReadReply)
  {
    var slot := SlotOf(st.slots, p);
    if AccountOf(st.accounts, p.pid) == |st.accounts| then (st, Unknown)
    else if Fetch(st, p).None? then (st, Silence)
    else
      (State(st.slots[slot := Slot(-1, p.pid)], st.file, Adjusted(st.accounts, p.pid, -1)), Content(st.file[slot]))
  }

  // ---------------------------------------------------------------- invariant

  ghost predicate Inv(st: State) {
    && |st.file| == |st.slots|
    && (forall i, j :: 0 <= i < j < |st.accounts| ==> st.accounts[i].pid != st.accounts[j].pid)
    && (forall i :: 0 <= i < |st.slots| && st.slots[i].index != -1 ==>
          AccountOf(st.accounts, st.slots[i].pid) < |st.accounts|)
    && (forall i :: 0 <= i < |st.accounts| ==>
          st.accounts[i].count == Count(st.slots, OwnedBy(st.accounts[i].pid)))
    && NoDuplicate(st.slots)
    && forall i :: 0 <= i < |st.slots| && st.slots[i].index != -1 ==> st.slots[i].index >= 1
  }

  ghost predicate NoDuplicate(slots: seq<Slot>) {
    forall i, j :: 0 <= i < j < |slots| && slots[i].index != -1 ==> slots[i] != slots[j]
  }

  function Total(accounts: seq<Account>): int {
    if |accounts| == 0 then 0 else Total(accounts[..|accounts| - 1]) + accounts[|accounts| - 1].count
  }

  lemma {:induction false} AdjustedTotal(accounts: seq<Account>, pid: nat, delta: int)
    requires forall i, j :: 0 <= i < j < |accounts| ==> accounts[i].pid != accounts[j].pid
    ensures Total(Adjusted(accounts, pid, delta)) ==
            Total(accounts) + if AccountOf(accounts, pid) < |accounts| then delta else 0
  {
    if |accounts| > 0 {
      var n := |accounts| - 1;
      var before, last := accounts[..n], accounts[n];
      AdjustedTotal(before, pid, delta);
      assert Adjusted(accounts, pid, delta)[..n] == Adjusted(before, pid, delta);
      var r, q := AccountOf(accounts, pid), AccountOf(before, pid);
      if q < n {
        assert accounts[q].pid == pid;
      } else {
        assert forall k :: 0 <= k < n ==> accounts[k] == before[k];
        assert forall k :: 0 <= k < n ==> !Of(pid)(before[k]);
      }
    }
  }

  /**
    Storing a page that has no slot yet keeps the books straight: afterwards the page has exactly the
    slot that was the first free one, every other slot keeps its page and content, and the accounts
    still count the slots.
   */
  lemma WriteKeeps(cfg: Config, st: State, p: PageId, page: Bytes)
    requires Inv(st) && Fetch(st, p).None? && p.num >= 1
    ensures var (st', reply) := Write(cfg, st, p, page);
            && Inv(st')
            && Fetch(st', p) == (if reply == Stored then Some(page) else None)
            && (forall q :: q != p ==> Fetch(st', q) == Fetch(st, q))
  {
    hide Inv, Fetch, Adjusted, Registered, Admission;
    var slot := FreeSlot(st.slots);
    SizedFile(st);
    RegisteredKeeps(st, p.pid);
    if slot < |st.slots| {
      AbsentHasNoSlot(st, p);
      hide FreeSlot;
      var mid := st.(accounts := Registered(st.accounts, p.pid));
      AdjustKeeps(mid, slot, Slot(p.num, p.pid), page, p.pid, 1);
      var slots, accounts := st.slots[slot := Slot(p.num, p.pid)], Adjusted(mid.accounts, p.pid, 1);
      StoredIsFetched(st, State(slots, st.file[slot := page], accounts), slot, p, page);
      SameFetch(st, mid);
    }
  }

  lemma SizedFile(st: State)
    requires Inv(st)
    ensures |st.file| == |st.slots|
  {
  }

  lemma SameFetch(st: State, st': State)
    requires st'.slots == st.slots && st'.file == st.file
    ensures forall q :: Fetch(st', q) == Fetch(st, q)
  {
  }

  lemma AbsentHasNoSlot(st: State, p: PageId)
    requires |st.file| == |st.slots| && Fetch(st, p).None?
    ensures SlotOf(st.slots, p) == |st.slots| && (HasRoom(st) ==> st.slots[FreeSlot(st.slots)].index == -1)
  {
  }

  /** A page put into a free slot is found there, and no other page is found anywhere else than before. */
  lemma StoredIsFetched(st: State, st': State, slot: nat, p: PageId, page: Bytes)
    requires |st.file| == |st.slots| && slot < |st.slots| && st.slots[slot].index == -1 && p.num >= 1
    requires SlotOf(st.slots, p) == |st.slots|
    requires st'.slots == st.slots[slot := Slot(p.num, p.pid)] && st'.file == st.file[slot := page]
    ensures Fetch(st', p) == Some(page)
    ensures forall q :: q != p ==> Fetch(st', q) == Fetch(st, q)
  {
    SlotsAfterUpdate(st.slots, slot, Slot(p.num, p.pid), p);
    assert Keeps(p)(st'.slots[slot]);
    forall q | q != p
      ensures SlotOf(st.slots, q) != slot
    {
      assert !Keeps(q)(st.slots[slot]);
    }
  }

  lemma RegisteredKeeps(st: State, pid: nat)
    requires Inv(st)
    ensures Inv(st.(accounts := Registered(st.accounts, pid)))
    ensures AccountOf(Registered(st.accounts, pid), pid) < |Registered(st.accounts, pid)|
  {
    var before, after := st.accounts, Registered(st.accounts, pid);
    if after != before {
      assert Of(pid)(after[|before|]);
      assert forall k :: 0 <= k < |before| ==> !Of(pid)(before[k]);
      forall q | AccountOf(before, q) < |before|
        ensures AccountOf(after, q) < |after|
      {
        assert Of(q)(after[AccountOf(before, q)]);
      }
      if Count(st.slots, OwnedBy(pid)) > 0 {
        CountPositive(st.slots, OwnedBy(pid));
      }
    }
  }

  lemma AdjustedAt(accounts: seq<Account>, pid: nat, delta: int, q: nat)
    ensures AccountOf(Adjusted(accounts, pid, delta), q) == AccountOf(accounts, q)
  {
    var after := Adjusted(accounts, pid, delta);
    assert forall k :: 0 <= k < |accounts| ==> Of(q)(after[k]) == Of(q)(accounts[k]);
  }

  /** The change of a slot on behalf of `pid`, and by how much that changes the number of its slots. */
  predicate Changes(st: State, slot: nat, s: Slot, pid: nat, delta: int) {
    && slot < |st.slots| && s.pid == pid && (s.index == -1 || s.index >= 1)
    && AccountOf(st.accounts, pid) < |st.accounts|
    && (st.slots[slot].index != -1 ==> st.slots[slot].pid == pid)
    && delta == (if s.index == -1 then 0 else 1) - (if st.slots[slot].index == -1 then 0 else 1)
    && (s.index != -1 ==> SlotOf(st.slots, PageId(pid, s.index)) == |st.slots|)
  }

  lemma OwnersStay(st: State, slot: nat, s: Slot, pid: nat, delta: int)
    requires Inv(st) && Changes(st, slot, s, pid, delta)
    ensures var slots, accounts := st.slots[slot := s], Adjusted(st.accounts, pid, delta);
            forall i :: 0 <= i < |slots| && slots[i].index != -1 ==> AccountOf(accounts, slots[i].pid) < |accounts|
  {
    hide Count, NoDuplicate, SlotOf, AccountOf;
    var slots, accounts := st.slots[slot := s], Adjusted(st.accounts, pid, delta);
    forall i | 0 <= i < |slots| && slots[i].index != -1
      ensures AccountOf(accounts, slots[i].pid) < |accounts|
    {
      AdjustedAt(st.accounts, pid, delta, slots[i].pid);
    }
  }

  lemma CountsStay(st: State, slot: nat, s: Slot, pid: nat, delta: int)
    requires Inv(st) && Changes(st, slot, s, pid, delta)
    ensures var slots, accounts := st.slots[slot := s], Adjusted(st.accounts, pid, delta);
            forall i :: 0 <= i < |accounts| ==> accounts[i].count == Count(slots, OwnedBy(accounts[i].pid))
  {
    hide Count, NoDuplicate, SlotOf, AccountOf;
    var slots, accounts := st.slots[slot := s], Adjusted(st.accounts, pid, delta);
    forall i | 0 <= i < |accounts|
      ensures accounts[i].count == Count(slots, OwnedBy(accounts[i].pid))
    {
      CountUpdate(st.slots, OwnedBy(st.accounts[i].pid), slot, s);
    }
  }

  lemma NoneTwice(st: State, slot: nat, s: Slot, pid: nat, delta: int)
    requires NoDuplicate(st.slots) && Changes(st, slot, s, pid, delta)
    ensures NoDuplicate(st.slots[slot := s])
  {
    hide AccountOf;
    if s.index != -1 {
      assert forall k :: 0 <= k < |st.slots| ==> !Keeps(PageId(pid, s.index))(st.slots[k]);
    }
  }

  /** Changing one slot on behalf of `pid`, and the count of `pid` by the same amount, keeps the invariant. */
  lemma AdjustKeeps(st: State, slot: nat, s: Slot, page: Bytes, pid: nat, delta: int)
    requires Inv(st) && Changes(st, slot, s, pid, delta)
    ensures Inv(State(st.slots[slot := s], st.file[slot := page], Adjusted(st.accounts, pid, delta)))
  {
    OwnersStay(st, slot, s, pid, delta);
    CountsStay(st, slot, s, pid, delta);
    NoneTwice(st, slot, s, pid, delta);
    hide Count, NoDuplicate, SlotOf, AccountOf;
  }

  /** Overwriting a slot of `p`, or a free slot with `p`, does not move any other page. */
  lemma SlotsAfterUpdate(slots: seq<Slot>, slot: nat, s: Slot, p: PageId)
    requires slot < |slots| && s.pid == p.pid && (s.index == -1 || s.index == p.num) && p.num >= 1
    requires slots[slot].index == -1 || slots[slot] == Slot(p.num, p.pid)
    ensures forall q: PageId :: q != p ==> Keeps(q)(slots[slot]) == Keeps(q)(s) == false
    ensures forall q: PageId :: q != p ==> SlotOf(slots[slot := s], q) == SlotOf(slots, q)
  {
    forall q: PageId | q != p
      ensures SlotOf(slots[slot := s], q) == SlotOf(slots, q)
    {
      assert !Keeps(q)(slots[slot]) && !Keeps(q)(s);
      assert forall k :: 0 <= k < |slots| ==> Keeps(q)(slots[slot := s][k]) == Keeps(q)(slots[k]);
    }
  }

  /** `slot` is the first free one. */
  ghost predicate FirstFree(slots: seq<Slot>, slot: nat) {
    && slot < |slots| && slots[slot].index == -1
    && forall k :: 0 <= k < slot ==> slots[k].index != -1
  }

  lemma FirstFreeIs(slots: seq<Slot>, slot: nat)
    requires FirstFree(slots, slot)
    ensures FreeSlot(slots) == slot
  {
    assert IsFree()(slots[slot]);
    assert forall k :: 0 <= k < slot ==> !IsFree()(slots[k]);
  }

  /** The accounts once `pid` has one, the others in their order, with `delta` more slots for `pid`. */
  ghost predicate Booked(before: seq<Account>, after: seq<Account>, pid: nat, delta: int) {
    && (if exists a :: a in before && a.pid == pid then |after| == |before|
        else |after| == |before| + 1 && after[|before|] == Account(pid, delta))
    && forall i :: 0 <= i < |before| ==>
         && after[i].pid == before[i].pid
         && after[i].count == before[i].count + if before[i].pid == pid then delta else 0
  }

  lemma {:induction false} OpensAccount(accounts: seq<Account>, pid: nat)
    ensures Booked(accounts, Registered(accounts, pid), pid, 0)
    ensures Registered(accounts, pid) == accounts <==> exists a :: a in accounts && a.pid == pid
  {
    var i := AccountOf(accounts, pid);
    if i < |accounts| {
      assert accounts[i] in accounts;
    } else {
      assert forall k :: 0 <= k < |accounts| ==> !Of(pid)(accounts[k]);
    }
  }

  /**
    What a write does to the tables.  With no free slot it does nothing.  Otherwise it opens an account for a process
    that has none, stored or not, and a page that is stored goes into the first free slot.
   */
  lemma {:induction false} WritePlaces(cfg: Config, st: State, p: PageId, page: Bytes)
    requires Inv(st)
    ensures var (st', reply) := Write(cfg, st, p, page);
            && ((forall i :: 0 <= i < |st.slots| ==> st.slots[i].index != -1) ==> st' == st && reply == Crashed)
            && (forall slot: nat :: FirstFree(st.slots, slot) ==>
                  && Booked(st.accounts, st'.accounts, p.pid, if reply == Stored then 1 else 0)
                  && (if reply == Stored then
                        && st'.slots == st.slots[slot := Slot(p.num, p.pid)]
                        && st'.file == st.file[slot := page]
                      else st'.slots == st.slots && st'.file == st.file))
  {
    hide Admission, AccountOf, Registered;
    OpensAccount(st.accounts, p.pid);
    var slot := FreeSlot(st.slots);
    assert slot < |st.slots| ==> IsFree()(st.slots[slot]);
    forall other: nat | FirstFree(st.slots, other)
      ensures other == slot
    {
      FirstFreeIs(st.slots, other);
    }
  }

  /** Reading gives the slot back: the page is gone from swap, and nothing else moves. */
  lemma ReadKeeps(st: State, p: PageId)
    requires Inv(st) && p.num >= 1
    ensures var (st', reply) := Read(st, p);
            && Inv(st')
            && (reply.Content? <==> Fetch(st, p).Some?)
            && (reply.Content? ==> Fetch(st, p) == Some(reply.bytes) && HasRoom(st'))
            && (reply == Unknown <==> forall a :: a in st.accounts ==> a.pid != p.pid)
            && (reply == Silence <==> (exists a :: a in st.accounts && a.pid == p.pid) && Fetch(st, p).None?)
            && (reply.Content? ==> forall i :: 0 <= i < |st.slots| ==>
                  st'.slots[i] == if st.slots[i] == Slot(p.num, p.pid) then Slot(-1, p.pid) else st.slots[i])
            && (!reply.Content? ==> st' == st)
            && Fetch(st', p).None?
            && (forall q :: q != p ==> Fetch(st', q) == Fetch(st, q))
  {
    var (st', reply) := Read(st, p);
    var slot := SlotOf(st.slots, p);
    OpensAccount(st.accounts, p.pid);
    OwnerIsKnown(st, p);
    if reply.Content? {
      assert Keeps(p)(st.slots[slot]);
      AdjustKeeps(st, slot, Slot(-1, p.pid), st.file[slot], p.pid, -1);
      assert st.file[slot := st.file[slot]] == st.file;
      SlotsAfterUpdate(st.slots, slot, Slot(-1, p.pid), p);
      forall k | 0 <= k < |st'.slots|
        ensures !Keeps(p)(st'.slots[k])
      {
        assert k < slot ==> st.slots[k] != st.slots[slot];
        assert slot < k ==> st.slots[slot] != st.slots[k];
      }
      assert IsFree()(st'.slots[slot]);
    }
  }

  /** Who has a page in swap has an account. */
  lemma OwnerIsKnown(st: State, p: PageId)
    requires Inv(st) && p.num >= 1
    ensures Fetch(st, p).Some? ==> AccountOf(st.accounts, p.pid) < |st.accounts|
  {
  }

  // ---------------------------------------------------------------- conservation

  /** Every slot is either free or counted in exactly one account. */
  lemma SlotsConserved(st: State)
    requires Inv(st)
    ensures Count(st.slots, IsFree()) + Total(st.accounts) == |st.slots|
  {
    CountsConserved(st.slots, st.accounts);
  }

  lemma {:induction false} CountsConserved(slots: seq<Slot>, accounts: seq<Account>)
    requires forall i, j :: 0 <= i < j < |accounts| ==> accounts[i].pid != accounts[j].pid
    requires forall i :: 0 <= i < |slots| && slots[i].index != -1 ==> AccountOf(accounts, slots[i].pid) < |accounts|
    requires forall i :: 0 <= i < |accounts| ==> accounts[i].count == Count(slots, OwnedBy(accounts[i].pid))
    ensures Count(slots, IsFree()) + Total(accounts) == |slots|
    decreases |slots|
  {
    if |slots| == 0 {
      TotalOfZeros(accounts);
    } else {
      var n := |slots| - 1;
      var last := slots[n];
      if last.index == -1 {
        CountsConserved(slots[..n], accounts);
      } else {
        var less := Adjusted(accounts, last.pid, -1);
        AdjustedTotal(accounts, last.pid, -1);
        forall i | 0 <= i < n && slots[..n][i].index != -1
          ensures AccountOf(less, slots[..n][i].pid) < |less|
        {
          AdjustedAt(accounts, last.pid, -1, slots[i].pid);
        }
        CountsConserved(slots[..n], less);
      }
    }
  }

  lemma {:induction false} TotalOfZeros(accounts: seq<Account>)
    requires forall i :: 0 <= i < |accounts| ==> accounts[i].count == 0
    ensures Total(accounts) == 0
  {
    if |accounts| > 0 {
      TotalOfZeros(accounts[..|accounts| - 1]);
    }
  }

  /** Exactly when a write is accepted: there is a free slot, and the policy admits the process. */
  predicate Admits(cfg: Config, st: State, pid: nat) {
    && HasRoom(st)
    && (cfg.allocation.Fixed? ==>
          if |st.accounts| == 0 then cfg.maxSlots > 0
          else st.accounts[0].pid == pid && st.accounts[0].count < cfg.maxSlots)
  }

  lemma WriteAccepted(cfg: Config, st: State, p: PageId, page: Bytes)
    requires Inv(st)
    ensures Write(cfg, st, p, page).1 == Stored <==> Admits(cfg, st, p.pid)
    ensures Write(cfg, st, p, page).1 == Crashed <==>
            !HasRoom(st) || (cfg.allocation.Fixed? && |st.accounts| > 0 && st.accounts[0].pid != p.pid)
  {
    var accounts := Registered(st.accounts, p.pid);
    if |st.accounts| == 0 {
      assert accounts == [Account(p.pid, 0)];
    } else if st.accounts[0].pid != p.pid {
      assert !Of(p.pid)(accounts[0]);
      RegisteredKeeps(st, p.pid);
      assert AccountOf(accounts, p.pid) != 0;
    }
  }

  /** Under the fixed policy the server dies of the first page of a second process, however many slots are free. */
  lemma SecondProcessCrashes(cfg: Config, slots: nat, size: nat, p: PageId, q: PageId, page: Bytes)
    requires cfg.allocation.Fixed? && cfg.maxSlots > 0 && slots > 0 && p.pid != q.pid
    ensures var (st, reply) := Write(cfg, Fresh(slots, size), p, page);
            reply == Stored && Write(cfg, st, q, page).1 == Crashed
  {
    var blank := Fresh(slots, size);
    assert IsFree()(blank.slots[0]);
    var accounts := Registered([], p.pid);
    assert accounts == [Account(p.pid, 0)] && Of(p.pid)(accounts[0]);
    var (st, reply) := Write(cfg, blank, p, page);
    assert st.accounts == [Account(p.pid, 1)];
    if HasRoom(st) {
      assert !Of(q.pid)(st.accounts[0]);
      assert Registered(st.accounts, q.pid) == st.accounts + [Account(q.pid, 0)];
    }
  }

  // ---------------------------------------------------------------- the server

  function Fresh(slots: nat, pageSize: nat): State {
    State(seq(slots, _ => Slot(-1, 0)), seq(slots, _ => seq(pageSize, _ => 0 as Byte)), [])
  }

  lemma FreshKeeps(slots: nat, pageSize: nat)
    ensures Inv(Fresh(slots, pageSize))
    ensures forall p :: Fetch(Fresh(slots, pageSize), p).None?
  {
  }

  class Server {
    const cfg: Config
    var slots: seq<Slot>
    var file: seq<Bytes>
    var accounts: seq<Account>

    function Contents(): State
      reads this
    {
      State(slots, file, accounts)
    }

    constructor (cfg: Config, slotCount: nat, pageSize: nat)
      ensures this.cfg == cfg && Contents() == Fresh(slotCount, pageSize)
    {
      var s: seq<Slot>, f: seq<Bytes> := [], [];
      var i := 0;
      while i < slotCount
        invariant i <= slotCount && |s| == |f| == i
        invariant forall k :: 0 <= k < i ==> s[k] == Slot(-1, 0) && f[k] == seq(pageSize, _ => 0 as Byte)
      {
        s, f, i := s + [Slot(-1, 0)], f + [seq(pageSize, _ => 0 as Byte)], i + 1;
      }
      this.cfg, slots, file, accounts := cfg, s, f, [];
    }

    /** `hayEspacioArchivo`: with no free slot the loop runs one past the list, and the server dies. */
    method FindRoom() returns (slot: Option<nat>)
      ensures slot.None? <==> !HasRoom(Contents())
      ensures slot.Some? ==> slot.value == FreeSlot(slots)
    {
      slot := None;
      var i := 0;
      while i <= |slots|
        invariant i <= |slots| && slot.None?
        invariant forall k :: 0 <= k < i ==> !IsFree()(slots[k])
      {
        if i == |slots| {
          return;
        }
        if slots[i].index == -1 {
          return Some(i);
        }
        i := i + 1;
      }
    }

    /** `conseguirMarco`: the slot of a page, or none. */
    method FindPage(p: PageId) returns (slot: Option<nat>)
      ensures slot == if Stores(Contents(), p) then Some(SlotOf(slots, p)) else None
    {
      var i := 0;
      while i < |slots|
        invariant i <= |slots|
        invariant forall k :: 0 <= k < i ==> !Keeps(p)(slots[k])
      {
        if slots[i].pid == p.pid && slots[i].index == p.num {
          return Some(i);
        }
        i := i + 1;
      }
      slot := None;
    }

    /** `recibirPagina`, the search of the account list. */
    method FindAccount(pid: nat) returns (known: bool)
      ensures known <==> AccountOf(accounts, pid) < |accounts|
    {
      var i := 0;
      while i < |accounts|
        invariant i <= |accounts|
        invariant forall k :: 0 <= k < i ==> !Of(pid)(accounts[k])
      {
        if accounts[i].pid == pid {
          return true;
        }
        i := i + 1;
      }
      known := false;
    }

    /** `actualizarMarcos` */
    method UpdateSlot(slot: nat, index: int, pid: nat)
      requires slot < |slots|
      modifies this`slots
      ensures slots == old(slots)[slot := Slot(index, pid)]
    {
      var i := 0;
      while i < |slots|
        invariant i <= |slots| == |old(slots)|
        invariant slots == if i <= slot then old(slots) else old(slots)[slot := Slot(index, pid)]
      {
        if i == slot {
          slots := slots[i := Slot(index, pid)];
        }
        i := i + 1;
      }
    }

    /** `actualizarCarpincho` */
    method UpdateAccount(pid: nat, delta: int)
      modifies this`accounts
      ensures accounts == Adjusted(old(accounts), pid, delta)
    {
      var i := 0;
      while i < |accounts|
        invariant i <= |accounts| == |old(accounts)|
        invariant accounts == Adjusted(old(accounts), pid, delta)[..i] + old(accounts)[i..]
      {
        if accounts[i].pid == pid {
          accounts := accounts[i := accounts[i].(count := accounts[i].count + delta)];
        }
        i := i + 1;
      }
    }

    /**
      `chequearAsignacion`, after the account of `pid` has been opened.  Under the fixed policy a process is
      admitted when its account is the first one and below the quota; with its account in any other place
      the count of the accounts of a file runs past the list of file names, and the server dies.
     */
    method CheckAllocation(pid: nat) returns (reply: WriteReply)
      requires HasRoom(Contents())
      ensures reply == Admission(cfg, |slots|, accounts, pid)
      ensures cfg.allocation.Dynamic? ==> reply == Stored
      ensures cfg.allocation.Fixed? && AccountOf(accounts, pid) < |accounts| ==>
                && (reply == Crashed <==> AccountOf(accounts, pid) > 0)
                && (reply == Stored <==> accounts[0].pid == pid && accounts[0].count < cfg.maxSlots)
    {
      if cfg.allocation.Dynamic? {
        var room := FindRoom();
        return if room.Some? then Stored else Refused;
      }
      // every path through the loop over the accounts returns, so it only sees the first one
      if |accounts| > 0 {
        if accounts[0].pid == pid {
          return if accounts[0].count < cfg.maxSlots then Stored else Refused;
        }
        var counter, c := [], 0;
        while c < FILES
          invariant c <= FILES && |counter| == c
          invariant c == 1 ==> |accounts| == 1 && counter[0] == 1
        {
          counter := counter + [0];
          var d := 0;
          while d < |accounts|
            invariant d <= |accounts| && d <= FILES && |counter| == c + 1 && counter[c] == d
          {
            if d >= FILES {
              // the name after the last one is NULL
              return Crashed;
            }
            counter := counter[c := counter[c] + 1];
            d := d + 1;
          }
          c := c + 1;
        }
        var e := 0;
        while e < FILES
          invariant e <= FILES
          invariant e == 1 ==> cfg.maxSlots > 0 && 1 >= |slots| / cfg.maxSlots
        {
          if cfg.maxSlots == 0 {
            return Crashed;
          }
          if counter[e] < |slots| / cfg.maxSlots {
            return Stored;
          }
          e := e + 1;
        }
        return Refused;
      }
      reply := Stored;
    }

    /** `escribir_swap` */
    method WritePage(p: PageId, page: Bytes) returns (reply: WriteReply)
      requires |file| == |slots|
      modifies this
      ensures (Contents(), reply) == Write(cfg, old(Contents()), p, page) && |file| == |slots|
    {
      var slot := FindRoom();
      if slot.None? {
        return Crashed;
      }
      var known := FindAccount(p.pid);
      if !known {
        accounts := accounts + [Account(p.pid, 0)];
      }
      reply := CheckAllocation(p.pid);
      if reply == Stored {
        file := file[slot.value := page];
        UpdateSlot(slot.value, p.num, p.pid);
        UpdateAccount(p.pid, 1);
      }
    }

    /** `leer_swap` */
    method ReadPage(p: PageId) returns (reply: ReadReply)
      requires |file| == |slots|
      modifies this
      ensures (Contents(), reply) == Read(old(Contents()), p) && |file| == |slots|
    {
      var known := FindAccount(p.pid);
      if !known {
        return Unknown;
      }
      var slot := FindPage(p);
      if slot.None? {
        return Silence;
      }
      reply := Content(file[slot.value]);
      UpdateSlot(slot.value, -1, p.pid);
      UpdateAccount(p.pid, -1);
    }
  }
}
