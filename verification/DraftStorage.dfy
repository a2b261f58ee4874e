/**
  The write-behind store for drafts (frontend/draft-storage.js): writes wait in memory until a
  timer or a flush commits them.  Seen from outside it is one plain map.
 */
module DraftStorage {
  import opened Text

  function ScopedKey(baseKey: string, scope: string): (key: string) {
    baseKey + ":" + (if scope == "" then "guest" else scope)
  }

  lemma ScopedIsLonger(baseKey: string, scope: string)
    ensures ScopedKey(baseKey, scope) != baseKey
  {
    assert |ScopedKey(baseKey, scope)| > |baseKey|;
  }

  /** The scope that counts: nobody signed in is the guest. */
  function ScopeName(scope: string): (name: string) {
    if scope == "" then "guest" else scope
  }

  /** Two drafts share a key exactly if they have the same base key and the same scope, for base keys without a colon. */
  lemma ScopedKeysDiffer(b: string, s: string, c: string, t: string)
    requires ':' !in b && ':' !in c
    ensures ScopedKey(b, s) == ScopedKey(c, t) <==> b == c && ScopeName(s) == ScopeName(t)
  {
    var k, l := ScopedKey(b, s), ScopedKey(c, t);
    assert k[..|b|] == b && k[|b|] == ':' && k[|b| + 1..] == ScopeName(s);
    assert l[..|c|] == c && l[|c|] == ':' && l[|c| + 1..] == ScopeName(t);
    if k == l {
      assert forall i | 0 <= i < |b| :: l[i] == b[i];
      assert forall i | 0 <= i < |c| :: k[i] == c[i];
    }
  }

  // ---------- Timers and keys belong together ----------

  /** Each waiting key has its armed timer, and each armed timer its waiting key. */
  ghost predicate Inverse(timers: map<string, nat>, armed: map<nat, string>) {
    && (forall key | key in timers :: timers[key] in armed && armed[timers[key]] == key)
    && (forall timer | timer in armed :: armed[timer] in timers && timers[armed[timer]] == timer)
  }

  function TimerOf(timers: map<string, nat>, key: string): (r: set<nat>) {
    if key in timers then {timers[key]} else {}
  }

  /** The armed timers but those for a key. */
  function WithoutKey(armed: map<nat, string>, key: string): (r: map<nat, string>) {
    map timer | timer in armed && armed[timer] != key :: armed[timer]
  }

  lemma WithoutKeyIs(timers: map<string, nat>, armed: map<nat, string>, key: string)
    requires Inverse(timers, armed)
    ensures WithoutKey(armed, key) == armed - TimerOf(timers, key)
  {}

  /** Exactly the keys with a timer are those that a timer will flush. */
  lemma KeysAreArmed(timers: map<string, nat>, armed: map<nat, string>)
    requires Inverse(timers, armed)
    ensures timers.Keys == armed.Values
  {}

  lemma DropTimer(timers: map<string, nat>, armed: map<nat, string>, key: string)
    requires Inverse(timers, armed)
    ensures Inverse(timers - {key}, armed - TimerOf(timers, key))
  {}

  lemma ArmTimer(timers: map<string, nat>, armed: map<nat, string>, key: string, timer: nat)
    requires Inverse(timers, armed) && key !in timers && timer !in armed
    ensures Inverse(timers[key := timer], armed[timer := key])
  {}

  // ---------- What the maps show from outside ----------

  lemma CommitShowsTheSame(storage: map<string, string>, pending: map<string, string>, key: string)
    requires key in pending
    ensures storage[key := pending[key]] + (pending - {key}) == storage + pending
  {}

  lemma WriteShows(storage: map<string, string>, pending: map<string, string>, key: string, value: string)
    ensures storage + pending[key := value] == (storage + pending)[key := value]
  {}

  lemma ClearShows(storage: map<string, string>, pending: map<string, string>, key: string, bare: string)
    requires key != bare
    ensures (storage - {key, bare}) + (pending - {key}) ==
      storage + pending - (if bare in pending then {key} else {key, bare})
  {}

  /** The armed timers, and the number of the next one. */
  datatype Timers = Timers(armed: map<nat, string>, next: nat)

  function StopTimer(t: Timers, key: string): (r: Timers) {
    t.(armed := WithoutKey(t.armed, key))
  }

  /** Only a key without a timer gets one. */
  function StartTimer(t: Timers, key: string): (r: Timers) {
    if key in t.armed.Values then t else Timers(t.armed[t.next := key], t.next + 1)
  }

  class DraftStorage {
    /** Persistent storage of the browser. */
    var storage: map<string, string>
    var pendingValues: map<string, string>
    var writeTimers: map<string, nat>
    /** The timers of the platform that were started and neither fired nor were cleared, with the key each will flush. */
    var armed: map<nat, string>
    var nextTimer: nat

    /** Exactly the waiting keys have a timer, and each timer will flush the key it was started for. */
    ghost predicate Valid()
      reads this
    {
      && pendingValues.Keys == writeTimers.Keys
      && Inverse(writeTimers, armed)
      && (forall timer | timer in armed :: 0 < timer < nextTimer)
      && 0 < nextTimer
    }

    /** `Valid` once `storageKey` and its timer are dropped; the timer may be missing or may just have fired. */
    ghost predicate ValidBut(storageKey: string)
      reads this
    {
      && pendingValues.Keys - {storageKey} == (writeTimers - {storageKey}).Keys
      && Inverse(writeTimers - {storageKey}, armed - TimerOf(writeTimers, storageKey))
      && (storageKey in writeTimers && writeTimers[storageKey] in armed ==> armed[writeTimers[storageKey]] == storageKey)
      && (forall timer | timer in armed :: 0 < timer < nextTimer)
      && 0 < nextTimer
    }

    /** The plain map: a waiting value hides the stored one. */
    ghost function Contents(): (m: map<string, string>)
      reads this
    {
      storage + pendingValues
    }

    constructor (storage: map<string, string>)
      ensures Valid() && Contents() == storage && pendingValues == map[] && armed == map[] && nextTimer == 1
    {
      this.storage := storage;
      pendingValues, writeTimers, armed, nextTimer := map[], map[], map[], 1;
      new;
      assert Contents() == storage;
    }

    /** Reading looks at the storage only, first under the scoped and then under the bare key. */
    method ReadDraftStorage(baseKey: string, scope: string) returns (value: Option<string>)
      ensures var key := ScopedKey(baseKey, scope);
        && value == (if key in storage then Some(storage[key]) else if baseKey in storage then Some(storage[baseKey]) else None)
        && (key in Contents() && key !in pendingValues ==> value == Some(Contents()[key]))
    {
      var key := ScopedKey(baseKey, scope);
      if key in storage {
        return Some(storage[key]);
      }
      return if baseKey in storage then Some(storage[baseKey]) else None;
    }

    /** Commits a waiting value; its timer, if it still runs, is cleared. */
    method FlushDraftStorageWrite(storageKey: string)
      requires storageKey in pendingValues ==> ValidBut(storageKey)
      requires storageKey !in pendingValues ==> Valid()
      modifies this
      ensures Valid() && Contents() == old(Contents())
      ensures pendingValues == old(pendingValues) - {storageKey}
      ensures storage == if storageKey in old(pendingValues) then old(storage)[storageKey := old(pendingValues)[storageKey]] else old(storage)
      ensures armed == WithoutKey(old(armed), storageKey) && nextTimer == old(nextTimer)
    {
      if storageKey !in pendingValues {
        WithoutKeyIs(writeTimers, armed, storageKey);
        return;
      }
      var value := pendingValues[storageKey];
      CommitShowsTheSame(storage, pendingValues, storageKey);
      pendingValues := pendingValues - {storageKey};
      assert pendingValues.Keys == old(pendingValues.Keys) - {storageKey};
      if storageKey in writeTimers {
        var timer := writeTimers[storageKey];
        armed := armed - {timer};
        writeTimers := writeTimers - {storageKey};
      } else {
        assert writeTimers - {storageKey} == writeTimers && armed - {} == armed;
      }
      storage := storage[storageKey := value];
    }

    method WriteDraftStorage(baseKey: string, scope: string, value: string, immediate: bool)
      requires Valid()
      modifies this
      ensures Valid() && Contents() == old(Contents())[ScopedKey(baseKey, scope) := value]
      ensures var key := ScopedKey(baseKey, scope);
        && (if immediate then storage == old(storage)[key := value] && pendingValues == old(pendingValues) - {key}
            else storage == old(storage) && pendingValues == old(pendingValues)[key := value])
        && Timers(armed, nextTimer) == TimersAfter(old(Timers(armed, nextTimer)), Write(baseKey, scope, value, immediate))
    {
      var storageKey := ScopedKey(baseKey, scope);
      WriteShows(storage, pendingValues, storageKey, value);
      if immediate {
        DropTimer(writeTimers, armed, storageKey);
        pendingValues := pendingValues[storageKey := value];
        FlushDraftStorageWrite(storageKey);
        assert pendingValues == old(pendingValues) - {storageKey};
        return;
      }
      WriteLater(storageKey, value);
    }

    /** The delayed write: the value waits, and the key has a timer. */
    method WriteLater(storageKey: string, value: string)
      requires Valid()
      modifies this`pendingValues, this`nextTimer, this`armed, this`writeTimers
      ensures Valid() && pendingValues == old(pendingValues)[storageKey := value]
      ensures Timers(armed, nextTimer) == StartTimer(old(Timers(armed, nextTimer)), storageKey)
    {
      KeysAreArmed(writeTimers, armed);
      pendingValues := pendingValues[storageKey := value];
      if storageKey in writeTimers {
        return;
      }
      SetTimer(storageKey);
    }

    /** `setTimeout`, and remembering the timer. */
    method SetTimer(storageKey: string)
      requires storageKey !in writeTimers && pendingValues.Keys == writeTimers.Keys + {storageKey}
      requires Inverse(writeTimers, armed) && 0 < nextTimer && forall timer | timer in armed :: 0 < timer < nextTimer
      modifies this`nextTimer, this`armed, this`writeTimers
      ensures Valid()
      ensures Timers(armed, nextTimer) == Timers(old(armed)[old(nextTimer) := storageKey], old(nextTimer) + 1)
    {
      var timer := nextTimer;
      ArmTimer(writeTimers, armed, storageKey, timer);
      nextTimer := nextTimer + 1;
      armed := armed[timer := storageKey];
      writeTimers := writeTimers[storageKey := timer];
    }

    /** The platform runs the callback of a timer that is still armed; a cleared timer never fires. */
    method TimerFires(timer: nat)
      requires Valid()
      modifies this
      ensures Valid() && Contents() == old(Contents())
      ensures timer !in old(armed) ==> storage == old(storage) && pendingValues == old(pendingValues)
      ensures timer in old(armed) ==> pendingValues == old(pendingValues) - {old(armed)[timer]}
      ensures armed == old(armed) - {timer} && nextTimer == old(nextTimer)
    {
      if timer !in armed {
        return;
      }
      var storageKey := armed[timer];
      DropTimer(writeTimers, armed, storageKey);
      armed := armed - {timer};
      assert armed - {timer} == armed;
      FlushDraftStorageWrite(storageKey);
    }

    /** Erases the key, waiting or stored, and the value stored under the bare key. */
    method ClearDraftStorage(baseKey: string, scope: string)
      requires Valid()
      modifies this
      ensures Valid()
      ensures var key := ScopedKey(baseKey, scope);
        && pendingValues == old(pendingValues) - {key} && storage == old(storage) - {key, baseKey}
        && Contents() == old(Contents()) - (if baseKey in old(pendingValues) then {key} else {key, baseKey})
      ensures Contents() == Plain(old(Contents()), Clear(baseKey, scope)) <==> baseKey !in old(pendingValues)
      ensures armed == WithoutKey(old(armed), ScopedKey(baseKey, scope)) && nextTimer == old(nextTimer)
    {
      ScopedIsLonger(baseKey, scope);
      var storageKey := ScopedKey(baseKey, scope);
      ClearShows(storage, pendingValues, storageKey, baseKey);
      WithoutKeyIs(writeTimers, armed, storageKey);
      DropTimer(writeTimers, armed, storageKey);
      assert armed - {} == armed;
      assert storage - {storageKey} - {baseKey} == storage - {storageKey, baseKey};
      if storageKey in writeTimers {
        armed := armed - {writeTimers[storageKey]};
      }
      writeTimers := writeTimers - {storageKey};
      pendingValues := pendingValues - {storageKey};
      storage := storage - {storageKey};
      storage := storage - {baseKey};
    }

    /** Afterwards the storage is the plain map. */
    method FlushAllDraftStorageWrites()
      requires Valid()
      modifies this
      ensures Valid() && Contents() == old(Contents())
      ensures pendingValues == map[] && armed == map[] && storage == Contents() && nextTimer == old(nextTimer)
    {
      var keys := pendingValues.Keys;
      while keys != {}
        invariant Valid() && Contents() == old(Contents()) && nextTimer == old(nextTimer)
        invariant pendingValues.Keys == keys
        decreases keys
      {
        var storageKey :| storageKey in keys;
        DropTimer(writeTimers, armed, storageKey);
        FlushDraftStorageWrite(storageKey);
        keys := keys - {storageKey};
      }
      NothingWaits();
    }

    /** Nothing is stranded: when every armed timer has fired, everything is stored. */
    method LetTimersFire()
      requires Valid()
      modifies this
      ensures Valid() && Contents() == old(Contents())
      ensures pendingValues == map[] && storage == Contents()
    {
      while pendingValues.Keys != {}
        invariant Valid() && Contents() == old(Contents())
        decreases pendingValues.Keys
      {
        var key :| key in pendingValues;
        assert key in writeTimers;
        TimerFires(writeTimers[key]);
      }
      NothingWaits();
    }

    lemma NothingWaits()
      requires Valid() && pendingValues.Keys == {}
      ensures pendingValues == map[] && armed == map[] && storage == Contents()
    {
      assert forall timer | timer in armed :: armed[timer] in pendingValues.Keys;
      assert armed.Keys == {};
    }
  }

  // ---------- Every run refines the plain map ----------

  datatype Op =
    | Write(baseKey: string, scope: string, value: string, immediate: bool)
    | Clear(baseKey: string, scope: string)
    | Fire(timer: nat)
    | FlushAll

  /** What an operation means for a map without waiting values. */
  function Plain(m: map<string, string>, op: Op): (r: map<string, string>) {
    match op
    case Write(baseKey, scope, value, _) => m[ScopedKey(baseKey, scope) := value]
    case Clear(baseKey, scope) => m - {ScopedKey(baseKey, scope), baseKey}
    case Fire(_) => m
    case FlushAll => m
  }

  function PlainRun(m: map<string, string>, ops: seq<Op>): (r: map<string, string>) {
    if ops == [] then m else Plain(PlainRun(m, ops[..|ops| - 1]), ops[|ops| - 1])
  }

  function TimersAfter(t: Timers, op: Op): (r: Timers) {
    match op
    case Write(baseKey, scope, _, immediate) =>
      if immediate then StopTimer(t, ScopedKey(baseKey, scope)) else StartTimer(t, ScopedKey(baseKey, scope))
    case Clear(baseKey, scope) => StopTimer(t, ScopedKey(baseKey, scope))
    case Fire(timer) => t.(armed := t.armed - {timer})
    case FlushAll => t.(armed := map[])
  }

  function TimersOf(ops: seq<Op>): (t: Timers) {
    if ops == [] then Timers(map[], 1) else TimersAfter(TimersOf(ops[..|ops| - 1]), ops[|ops| - 1])
  }

  /** The keys under which a value waits after some operations. */
  function WaitingAfter(ops: seq<Op>): (keys: set<string>) {
    TimersOf(ops).armed.Values
  }

  /** What the store makes of an operation: a value that waits under a cleared bare key is missed. */
  function Shown(m: map<string, string>, waiting: set<string>, op: Op): (r: map<string, string>) {
    if op.Clear? && op.baseKey in waiting then m - {ScopedKey(op.baseKey, op.scope)} else Plain(m, op)
  }

  function ShownRun(m: map<string, string>, ops: seq<Op>): (r: map<string, string>) {
    if ops == [] then m
    else
      var front := ops[..|ops| - 1];
      Shown(ShownRun(m, front), WaitingAfter(front), ops[|ops| - 1])
  }

  method Perform(drafts: DraftStorage, op: Op)
    requires drafts.Valid()
    modifies drafts
    ensures drafts.Valid() && drafts.Contents() == Shown(old(drafts.Contents()), old(drafts.armed.Values), op)
    ensures Timers(drafts.armed, drafts.nextTimer) == TimersAfter(old(Timers(drafts.armed, drafts.nextTimer)), op)
  {
    KeysAreArmed(drafts.writeTimers, drafts.armed);
    match op
    case Write(baseKey, scope, value, immediate) => drafts.WriteDraftStorage(baseKey, scope, value, immediate);
    case Clear(baseKey, scope) => drafts.ClearDraftStorage(baseKey, scope);
    case Fire(timer) => drafts.TimerFires(timer);
    case FlushAll => drafts.FlushAllDraftStorageWrites();
  }

  /** Any mix of writes, clears, flushes and timers, on any storage and ended by a flush, leaves exactly this. */
  method RunDraftStorage(initial: map<string, string>, ops: seq<Op>) returns (stored: map<string, string>)
    ensures stored == ShownRun(initial, ops)
  {
    var drafts := new DraftStorage(initial);
    for n := 0 to |ops|
      invariant fresh(drafts) && drafts.Valid() && drafts.Contents() == ShownRun(initial, ops[..n])
      invariant Timers(drafts.armed, drafts.nextTimer) == TimersOf(ops[..n])
    {
      assert ops[..n + 1][..n] == ops[..n];
      Perform(drafts, ops[n]);
    }
    assert ops[..|ops|] == ops;
    drafts.FlushAllDraftStorageWrites();
    stored := drafts.storage;
  }

  // ---------- When that is the plain map ----------

  /** Operation `n` clears a bare key under which a value waits. */
  predicate MeetsWaiting(ops: seq<Op>, n: nat)
    requires n < |ops|
  {
    ops[n].Clear? && ops[n].baseKey in WaitingAfter(ops[..n])
  }

  predicate NoneMeetsWaiting(ops: seq<Op>) {
    forall n | 0 <= n < |ops| :: !MeetsWaiting(ops, n)
  }

  /** The store agrees with the plain map now and after every operation. */
  ghost predicate AlwaysPlain(m: map<string, string>, ops: seq<Op>) {
    ShownRun(m, ops) == PlainRun(m, ops) && (ops == [] || AlwaysPlain(m, ops[..|ops| - 1]))
  }

  lemma {:induction false} WaitingIsShown(m: map<string, string>, ops: seq<Op>)
    ensures WaitingAfter(ops) <= ShownRun(m, ops).Keys
  {
    if ops != [] {
      WaitingIsShown(m, ops[..|ops| - 1]);
    }
  }

  /** Throughout a run the store is the plain map exactly if no clear meets a value waiting under its bare key. */
  lemma {:induction false} AlwaysPlainIff(m: map<string, string>, ops: seq<Op>)
    ensures AlwaysPlain(m, ops) <==> NoneMeetsWaiting(ops)
  {
    if ops != [] {
      var last := |ops| - 1;
      var front, op := ops[..last], ops[last];
      AlwaysPlainIff(m, front);
      NoneMeetsStep(ops);
      WaitingIsShown(m, front);
      if MeetsWaiting(ops, last) {
        ScopedIsLonger(op.baseKey, op.scope);
        assert op.baseKey in ShownRun(m, ops);
        assert op.baseKey !in PlainRun(m, ops);
      }
    }
  }

  lemma NoneMeetsStep(ops: seq<Op>)
    requires ops != []
    ensures NoneMeetsWaiting(ops) <==> NoneMeetsWaiting(ops[..|ops| - 1]) && !MeetsWaiting(ops, |ops| - 1)
  {
    var front := ops[..|ops| - 1];
    forall n | 0 <= n < |front|
      ensures MeetsWaiting(front, n) == MeetsWaiting(ops, n)
    {
      assert front[..n] == ops[..n];
    }
  }

  predicate HasColon(s: string) {
    ':' in s
  }

  lemma {:induction false} WaitingHaveColons(ops: seq<Op>)
    ensures forall key | key in WaitingAfter(ops) :: HasColon(key)
  {
    if ops != [] {
      WaitingHaveColons(ops[..|ops| - 1]);
      var op := ops[|ops| - 1];
      if op.Write? {
        ScopedHasColon(op.baseKey, op.scope);
      }
    }
  }

  lemma ScopedHasColon(baseKey: string, scope: string)
    ensures HasColon(ScopedKey(baseKey, scope))
  {
    assert ScopedKey(baseKey, scope)[|baseKey|] == ':';
  }

  /** Base keys without a colon, as the program has them, are never waited under. */
  lemma PlainBaseKeys(m: map<string, string>, ops: seq<Op>)
    requires forall n | 0 <= n < |ops| && ops[n].Clear? :: !HasColon(ops[n].baseKey)
    ensures AlwaysPlain(m, ops)
  {
    forall n | 0 <= n < |ops|
      ensures !MeetsWaiting(ops, n)
    {
      WaitingHaveColons(ops[..n]);
    }
    AlwaysPlainIff(m, ops);
  }

  /**
    With a base key that is the scoped key of another draft, a value that waits there survives its erasure.
    The two base keys of the program have no colon, so this takes another caller.
   */
  method WaitingBareKeySurvives(value: string) returns (ops: seq<Op>, stored: map<string, string>)
    ensures ops == [Write("a", "b", value, false), Clear("a:b", "c")]
    ensures stored == map["a:b" := value] && PlainRun(map[], ops) == map[]
  {
    ops := [Write("a", "b", value, false), Clear("a:b", "c")];
    var drafts := new DraftStorage(map[]);
    assert ScopedKey("a", "b") == "a:b" && ScopedKey("a:b", "c") == "a:b:c";
    drafts.WriteDraftStorage("a", "b", value, false);
    assert drafts.Contents()["a:b"] == value;
    drafts.ClearDraftStorage("a:b", "c");
    drafts.FlushAllDraftStorageWrites();
    stored := drafts.storage;
    assert ops[..1] == [ops[0]] && ops[..1][..0] == [];
    assert PlainRun(map[], ops[..1]) == map["a:b" := value];
  }
}
