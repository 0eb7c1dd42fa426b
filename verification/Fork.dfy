/**
 A fork: a snapshot of the database with changes on top.  Changes after a checkpoint are
 logged, so that they can be undone.
 */
module Fork {
  import opened Bytes
  import opened Wrappers

  /** A name of a column family and a key in it. */
  datatype Key = Key(name: string, bytes: seq<Byte>)

  type Value = seq<Byte>

  datatype Change = Put(value: Value) | Delete

  type Data = map<Key, Value>
  type Patch = map<Key, Change>
  type Log = seq<(Key, Option<Change>)>

  // ----- What a patch and a log mean -----

  /** The data with a patch applied to it. */
  function Merged(data: Data, patch: Patch): Data {
    map k | k in data.Keys + patch.Keys && (k in patch ==> patch[k].Put?) ::
      if k in patch then patch[k].value else data[k]
  }

  lemma MergedNone(data: Data)
    ensures Merged(data, map[]) == data
  {
  }

  /** Patches can be put together before they are applied. */
  lemma MergedTwice(data: Data, first: Patch, second: Patch)
    ensures Merged(Merged(data, first), second) == Merged(data, first + second)
  {
  }

  /** Puts the old entry of a key back. */
  function Restore(patch: Patch, k: Key, was: Option<Change>): Patch {
    match was
    case Some(change) => patch[k := change]
    case None => patch - {k}
  }

  /** Undoes logged changes, the latest first. */
  function Undo(patch: Patch, log: Log): Patch
    decreases |log|
  {
    if log == [] then patch
    else
      var (k, was) := log[|log| - 1];
      Undo(Restore(patch, k, was), log[..|log| - 1])
  }

  function Logged(log: Log): set<Key> {
    set e | e in log :: e.0
  }

  /** Undoing sets every logged key and no other, so an entry that vanished without being
      logged comes back only if its key was logged before. */
  lemma {:induction false} UndoWithout(patch: Patch, gone: set<Key>, log: Log)
    ensures Undo(patch - gone, log) == Undo(patch, log) - (gone - Logged(log))
    decreases |log|
  {
    if log == [] {
      assert gone - Logged(log) == gone;
    } else {
      var (k, was) := log[|log| - 1];
      var rest := log[..|log| - 1];
      assert log == rest + [(k, was)];
      assert Logged(log) == Logged(rest) + {k};
      assert Restore(patch - gone, k, was) == Restore(patch, k, was) - (gone - {k});
      UndoWithout(Restore(patch, k, was), gone - {k}, rest);
      assert gone - {k} - Logged(rest) == gone - Logged(log);
    }
  }

  lemma {:induction false} UndoUnlogged(patch: Patch, log: Log, k: Key)
    requires k !in Logged(log)
    ensures Entry(Undo(patch, log), k) == Entry(patch, k)
    decreases |log|
  {
    if log == [] {
    } else {
      var (last, was) := log[|log| - 1];
      var rest := log[..|log| - 1];
      assert log == rest + [(last, was)];
      assert (last, was) in log && Logged(rest) <= Logged(log);
      UndoUnlogged(Restore(patch, last, was), rest, k);
    }
  }

  lemma UndoLast(patch: Patch, log: Log, k: Key, was: Option<Change>)
    ensures Undo(patch, log + [(k, was)]) == Undo(Restore(patch, k, was), log)
  {
    var longer := log + [(k, was)];
    assert longer[|longer| - 1] == (k, was) && longer[..|longer| - 1] == log;
  }

  function Entry(patch: Patch, k: Key): Option<Change> {
    if k in patch then Some(patch[k]) else None
  }

  /** An overwritten entry that was logged is put back. */
  lemma RestoreOverwritten(patch: Patch, k: Key, change: Change)
    ensures Restore(patch[k := change], k, Entry(patch, k)) == patch
  {
  }

  // ----- Prefixes -----

  predicate StartsWith(s: seq<Byte>, prefix: seq<Byte>) {
    prefix <= s
  }

  /** Lexicographic order of keys. */
  predicate NotBefore(s: seq<Byte>, from: seq<Byte>) {
    from == [] || (s != [] && (s[0] > from[0] || (s[0] == from[0] && NotBefore(s[1..], from[1..]))))
  }

  /** A key is not before another one exactly when it begins with it, or is greater at the first
      byte in which they differ. */
  lemma {:induction false} NotBeforeExactly(s: seq<Byte>, from: seq<Byte>)
    ensures NotBefore(s, from) <==> from <= s || exists i :: GreaterAt(s, from, i)
  {
    if from == [] || s == [] {
    } else {
      var a, b := s[1..], from[1..];
      NotBeforeExactly(a, b);
      assert s == [s[0]] + a && from == [from[0]] + b;
      if s[0] == from[0] {
        if i :| GreaterAt(a, b, i) {
          assert s[..i + 1] == [s[0]] + a[..i] && from[..i + 1] == [from[0]] + b[..i];
          assert GreaterAt(s, from, i + 1);
        }
        if i :| GreaterAt(s, from, i) {
          assert a[..i - 1] == s[..i][1..] && b[..i - 1] == from[..i][1..];
          assert GreaterAt(a, b, i - 1);
        }
      } else {
        assert s[0] > from[0] <==> GreaterAt(s, from, 0);
        forall i | GreaterAt(s, from, i) ensures i == 0 {
          SameFirst(s, from, i);
        }
      }
    }
  }

  lemma SameFirst(s: seq<Byte>, from: seq<Byte>, i: nat)
    requires i <= |s| && i <= |from| && s[..i] == from[..i]
    ensures i == 0 || s[0] == from[0]
  {
    assert i > 0 ==> s[..i][0] == from[..i][0];
  }

  ghost predicate GreaterAt(s: seq<Byte>, from: seq<Byte>, i: int) {
    0 <= i < |s| && i < |from| && s[..i] == from[..i] && s[i] > from[i]
  }

  lemma {:induction false} PrefixNotBefore(s: seq<Byte>, prefix: seq<Byte>)
    requires StartsWith(s, prefix)
    ensures NotBefore(s, prefix)
  {
    if prefix == [] {
    } else {
      PrefixNotBefore(s[1..], prefix[1..]);
    }
  }

  /** The keys of the family that begin with the prefix. */
  predicate Under(k: Key, name: string, prefix: seq<Byte>) {
    k.name == name && StartsWith(k.bytes, prefix)
  }

  /** The keys that an iteration from the prefix passes; it does not stop where the prefix ends. */
  predicate Passed(k: Key, name: string, prefix: seq<Byte>) {
    k.name == name && NotBefore(k.bytes, prefix)
  }

  function UnderKeys(patch: Patch, name: string, prefix: seq<Byte>): set<Key> {
    set k | k in patch && Under(k, name, prefix)
  }

  function PassedKeys(data: Data, name: string, prefix: seq<Byte>): set<Key> {
    set k | k in data && Passed(k, name, prefix)
  }

  function Deleting(patch: Patch, keys: set<Key>): Patch {
    map k | k in patch.Keys + keys :: if k in keys then Delete else patch[k]
  }

  /** What is left to see after a clearing. */
  lemma ClearedView(data: Data, patch: Patch, name: string, prefix: seq<Byte>)
    ensures Merged(data, Deleting(patch - UnderKeys(patch, name, prefix), PassedKeys(data, name, prefix)))
         == Cleared(data, Merged(data, patch), name, prefix)
  {
    var left := Deleting(patch - UnderKeys(patch, name, prefix), PassedKeys(data, name, prefix));
    var shown, wanted := Merged(data, left), Cleared(data, Merged(data, patch), name, prefix);
    forall k: Key
      ensures k in shown <==> k in wanted
      ensures k in shown ==> shown[k] == wanted[k]
    {
      hide NotBefore;
      if StartsWith(k.bytes, prefix) {
        PrefixNotBefore(k.bytes, prefix);
      }
    }
  }

  function Cleared(data: Data, view: Data, name: string, prefix: seq<Byte>): Data {
    map k | k in view && !Under(k, name, prefix) && !(k in data && Passed(k, name, prefix)) :: view[k]
  }

  /** Clearing is meant to remove the keys under the prefix.  It removes no others exactly when
      no key of the snapshot comes after them in the same family. */
  lemma ClearedExactly(data: Data, view: Data, name: string, prefix: seq<Byte>)
    ensures Cleared(data, view, name, prefix) == (map k | k in view && !Under(k, name, prefix) :: view[k]) <==>
            forall k | k in view && k in data && Passed(k, name, prefix) :: Under(k, name, prefix)
  {
    var meant := map k | k in view && !Under(k, name, prefix) :: view[k];
    if k :| k in view && k in data && Passed(k, name, prefix) && !Under(k, name, prefix) {
      assert k in meant && k !in Cleared(data, view, name, prefix);
    }
  }

  /** A key of the snapshot behind the prefix: clearing under one byte deletes it too. */
  lemma ClearedTooMuch(name: string, v: Value)
    ensures var inside, behind := Key(name, [1]), Key(name, [2]);
            var data: Data := map[inside := v, behind := v];
            && !Under(behind, name, [1]) && behind in data && behind !in Cleared(data, data, name, [1])
  {
    assert NotBefore([2], [1]);
  }

  // ----- Lists of writes -----

  /** What a service can do to a fork. */
  datatype Write =
    | Store(key: Key, value: Value)
    | Erase(key: Key)
    | Clear(name: string, prefix: seq<Byte>)

  function Applied(data: Data, patch: Patch, w: Write): Patch {
    match w
    case Store(k, v) => patch[k := Put(v)]
    case Erase(k) => patch[k := Delete]
    case Clear(name, prefix) => Deleting(patch - UnderKeys(patch, name, prefix), PassedKeys(data, name, prefix))
  }

  function AppliedAll(data: Data, patch: Patch, ws: seq<Write>): Patch {
    if ws == [] then patch else Applied(data, AppliedAll(data, patch, ws[..|ws| - 1]), ws[|ws| - 1])
  }

  /** The keys that a write logs. */
  function Logs(data: Data, w: Write): set<Key> {
    match w
    case Store(k, _) => {k}
    case Erase(k) => {k}
    case Clear(name, prefix) => PassedKeys(data, name, prefix)
  }

  function LogsAll(data: Data, ws: seq<Write>): set<Key> {
    if ws == [] then {} else LogsAll(data, ws[..|ws| - 1]) + Logs(data, ws[|ws| - 1])
  }

  /** A write drops the entry of a key without logging it. */
  predicate Drops(w: Write, k: Key) {
    w.Clear? && Under(k, w.name, w.prefix)
  }

  /** One of the writes drops the entry of a key that no write before it logged. */
  predicate Forgets(data: Data, ws: seq<Write>, k: Key) {
    exists i | 0 <= i < |ws| :: Drops(ws[i], k) && k !in LogsAll(data, ws[..i])
  }

  /** The entries of a patch that some writes and a rollback destroy. */
  function Forgotten(data: Data, patch: Patch, ws: seq<Write>): set<Key> {
    set k | k in patch && Forgets(data, ws, k)
  }

  lemma ForgetsMore(data: Data, ws: seq<Write>, w: Write, k: Key)
    ensures Forgets(data, ws + [w], k) <==> Forgets(data, ws, k) || (Drops(w, k) && k !in LogsAll(data, ws))
  {
    var more := ws + [w];
    assert more[..|ws|] == ws && more[|ws|] == w;
    assert forall i | 0 <= i < |ws| :: more[i] == ws[i] && more[..i] == ws[..i];
  }

  lemma AppliedMore(data: Data, patch: Patch, ws: seq<Write>, w: Write)
    ensures AppliedAll(data, patch, ws + [w]) == Applied(data, AppliedAll(data, patch, ws), w)
    ensures LogsAll(data, ws + [w]) == LogsAll(data, ws) + Logs(data, w)
  {
    assert (ws + [w])[..|ws|] == ws;
  }

  /** One more write loses the entries under a cleared prefix that are still those from before. */
  lemma ForgottenMore(data: Data, start: Patch, patch: Patch, log: Log, ws: seq<Write>, w: Write)
    requires Logged(log) == LogsAll(data, ws) && Undo(patch, log) == start - Forgotten(data, start, ws)
    ensures Forgotten(data, start, ws + [w])
         == Forgotten(data, start, ws) + (set k | k in patch && Drops(w, k) && k !in Logged(log))
  {
    hide Undo, Logged, Drops, LogsAll;
    forall k: Key
      ensures k in Forgotten(data, start, ws + [w]) <==>
              k in Forgotten(data, start, ws) || (k in patch && Drops(w, k) && k !in Logged(log))
    {
      ForgetsMore(data, ws, w, k);
      if k !in Logged(log) {
        UndoUnlogged(patch, log, k);
      }
    }
  }

  lemma LostMeans(whole: Patch, gone: set<Key>)
    requires gone <= whole.Keys
    ensures whole - gone == whole <==> gone == {}
  {
    if gone != {} {
      var k :| k in gone;
      assert k in whole && k !in whole - gone;
    }
  }

  /** No clearing meets an entry of the patch that no write before the clearing logged. */
  predicate Undoable(data: Data, patch: Patch, ws: seq<Write>) {
    forall i, k | 0 <= i < |ws| && k in patch && Drops(ws[i], k) :: k in LogsAll(data, ws[..i])
  }

  lemma UndoableExactly(data: Data, patch: Patch, ws: seq<Write>)
    ensures patch - Forgotten(data, patch, ws) == patch <==> Undoable(data, patch, ws)
  {
    LostMeans(patch, Forgotten(data, patch, ws));
    if k :| k in Forgotten(data, patch, ws) {
      var i :| 0 <= i < |ws| && Drops(ws[i], k) && k !in LogsAll(data, ws[..i]);
    } else {
      forall i, k | 0 <= i < |ws| && k in patch && Drops(ws[i], k) ensures k in LogsAll(data, ws[..i]) {
        assert k !in Forgotten(data, patch, ws);
      }
    }
  }

  // ----- The same on data -----

  /** The data after a write, when `data` is the snapshot under the fork. */
  function Shown(data: Data, view: Data, w: Write): Data {
    match w
    case Store(k, v) => view[k := v]
    case Erase(k) => view - {k}
    case Clear(name, prefix) => Cleared(data, view, name, prefix)
  }

  function ShownAll(data: Data, view: Data, ws: seq<Write>): Data {
    if ws == [] then view else Shown(data, ShownAll(data, view, ws[..|ws| - 1]), ws[|ws| - 1])
  }

  /** A patch that takes up writes shows the data with these writes done to them. */
  lemma {:induction false} AppliedShows(data: Data, patch: Patch, ws: seq<Write>)
    ensures Merged(data, AppliedAll(data, patch, ws)) == ShownAll(data, Merged(data, patch), ws)
  {
    hide Merged, Applied, Shown;
    if ws == [] {
    } else {
      AppliedShows(data, patch, ws[..|ws| - 1]);
      OneShows(data, AppliedAll(data, patch, ws[..|ws| - 1]), ws[|ws| - 1]);
    }
  }

  lemma OneShows(data: Data, patch: Patch, w: Write)
    ensures Merged(data, Applied(data, patch, w)) == Shown(data, Merged(data, patch), w)
  {
    match w
    case Store(k, v) =>
    case Erase(k) =>
    case Clear(name, prefix) =>
      hide Merged, Deleting, Cleared;
      ClearedView(data, patch, name, prefix);
  }

  lemma ShownNone(data: Data, view: Data)
    ensures ShownAll(data, view, []) == view
  {
  }

  lemma {:induction false} ShownTwice(data: Data, view: Data, first: seq<Write>, second: seq<Write>)
    ensures ShownAll(data, ShownAll(data, view, first), second) == ShownAll(data, view, first + second)
    decreases |second|
  {
    hide Shown;
    if second == [] {
      assert first + second == first;
    } else {
      var n := |second| - 1;
      ShownTwice(data, view, first, second[..n]);
      assert (first + second)[..|first| + n] == first + second[..n];
    }
  }

  function Lookup(data: Data, k: Key): Option<Value> {
    if k in data then Some(data[k]) else None
  }

  /** The data after writes and a rollback: what the rollback forgets is as in the snapshot. */
  function Reverted(data: Data, view: Data, ws: seq<Write>): Data {
    map k | k in data.Keys + view.Keys && (if Forgets(data, ws, k) then k in data else k in view) ::
      if Forgets(data, ws, k) then data[k] else view[k]
  }

  lemma ForgottenShows(data: Data, patch: Patch, ws: seq<Write>)
    ensures Merged(data, patch - Forgotten(data, patch, ws)) == Reverted(data, Merged(data, patch), ws)
  {
    hide Forgets;
  }

  /** Nothing changes exactly when the forgotten keys are as in the snapshot. */
  lemma RevertedExactly(data: Data, view: Data, ws: seq<Write>)
    ensures Reverted(data, view, ws) == view <==>
            forall k: Key | Forgets(data, ws, k) :: Lookup(view, k) == Lookup(data, k)
  {
    hide Forgets;
    var after := Reverted(data, view, ws);
    if k: Key :| Forgets(data, ws, k) && Lookup(view, k) != Lookup(data, k) {
      assert Lookup(after, k) == Lookup(data, k);
    } else {
      forall k: Key ensures Lookup(after, k) == Lookup(view, k) {
      }
      SameLookups(after, view);
    }
  }

  lemma SameLookups(a: Data, b: Data)
    requires forall k: Key :: Lookup(a, k) == Lookup(b, k)
    ensures a == b
  {
    forall k: Key ensures (k in a <==> k in b) && (k in a ==> a[k] == b[k]) {
      assert Lookup(a, k) == Lookup(b, k);
    }
  }

  /** The write decides about the key. */
  predicate Touches(data: Data, w: Write, k: Key) {
    match w
    case Store(other, _) => other == k
    case Erase(other) => other == k
    case Clear(name, prefix) => Under(k, name, prefix) || (k in data && Passed(k, name, prefix))
  }

  /** The last write to a key decides what is read: its value, or nothing. */
  lemma {:induction false} LastWriteIsRead(data: Data, view: Data, ws: seq<Write>, i: nat, k: Key)
    requires i < |ws| && Touches(data, ws[i], k) && forall j | i < j < |ws| :: !Touches(data, ws[j], k)
    ensures Lookup(ShownAll(data, view, ws), k) == if ws[i].Store? then Some(ws[i].value) else None
    decreases |ws|
  {
    var n := |ws| - 1;
    if i == n {
    } else {
      LastWriteIsRead(data, view, ws[..n], i, k);
      assert !Touches(data, ws[n], k);
    }
  }

  /** What no write touches stays. */
  lemma {:induction false} UntouchedStays(data: Data, view: Data, ws: seq<Write>, k: Key)
    requires forall j | 0 <= j < |ws| :: !Touches(data, ws[j], k)
    ensures Lookup(ShownAll(data, view, ws), k) == Lookup(view, k)
    decreases |ws|
  {
    if ws == [] {
    } else {
      var n := |ws| - 1;
      UntouchedStays(data, view, ws[..n], k);
      assert !Touches(data, ws[n], k);
    }
  }

  // ----- The fork -----

  class Fork {
    const snapshot: Data
    var patch: Patch
    var changelog: Log
    var logged: bool
    // The patch at the checkpoint, and the keys whose entries have since been lost.
    ghost var base: Patch
    ghost var lost: set<Key>

    ghost predicate Valid()
      reads this
    {
      && (logged ==> lost <= base.Keys && Undo(patch, changelog) == base - lost)
      && (!logged ==> changelog == [])
    }

    constructor (snapshot: Data)
      ensures Valid() && !logged && patch == map[] && this.snapshot == snapshot
    {
      this.snapshot := snapshot;
      patch, changelog, logged := map[], [], false;
      base, lost := map[], {};
    }

    /** The data as the fork shows it. */
    ghost function View(): Data
      reads this
    {
      Merged(snapshot, patch)
    }

    /** A read sees the changes. */
    method Get(k: Key) returns (r: Option<Value>)
      ensures r == if k in View() then Some(View()[k]) else None
    {
      if k in patch {
        match patch[k]
        case Put(v) => return Some(v);
        case Delete => return None;
      }
      r := if k in snapshot then Some(snapshot[k]) else None;
    }

    /** False is the panic of a checkpoint inside a checkpoint. */
    method Checkpoint() returns (ok: bool)
      requires Valid()
      modifies this
      ensures Valid() && ok == !old(logged) && logged && patch == old(patch)
      ensures ok ==> base == patch && lost == {} && changelog == []
      ensures !ok ==> base == old(base) && lost == old(lost) && changelog == old(changelog)
    {
      if logged {
        return false;
      }
      logged := true;
      base, lost := patch, {};
      assert base - lost == base;
      ok := true;
    }

    method Commit() returns (ok: bool)
      requires Valid()
      modifies this
      ensures Valid() && ok == old(logged) && !logged && patch == old(patch)
    {
      if !logged {
        return false;
      }
      changelog := [];
      logged := false;
      ok := true;
    }

    /** Undoes everything since the checkpoint, except that entries that were lost stay lost:
        the patch is the one at the checkpoint exactly when nothing was lost. */
    method Rollback() returns (ok: bool)
      requires Valid()
      modifies this
      ensures Valid() && ok == old(logged) && !logged
      ensures ok ==> patch == old(base) - old(lost)
      ensures ok ==> (patch == old(base) <==> old(lost) == {})
      ensures !ok ==> patch == old(patch)
    {
      if !logged {
        return false;
      }
      while changelog != []
        invariant Undo(patch, changelog) == base - lost && lost <= base.Keys && logged
        invariant base == old(base) && lost == old(lost)
        decreases |changelog|
      {
        var (k, was) := changelog[|changelog| - 1];
        changelog := changelog[..|changelog| - 1];
        match was {
          case Some(change) => patch := patch[k := change];
          case None => patch := patch - {k};
        }
      }
      logged := false;
      LostMeans(base, lost);
      ok := true;
    }

    /** Records a change of one key. */
    method Insert(k: Key, change: Change)
      requires Valid()
      modifies this`patch, this`changelog
      ensures Valid() && patch == old(patch)[k := change]
      ensures logged ==> Logged(changelog) == Logged(old(changelog)) + {k}
    {
      RestoreOverwritten(patch, k, change);
      if logged {
        UndoLast(patch[k := change], changelog, k, Entry(patch, k));
        changelog := changelog + [(k, Entry(patch, k))];
      }
      patch := patch[k := change];
    }

    method Put(k: Key, v: Value)
      requires Valid()
      modifies this`patch, this`changelog
      ensures Valid() && View() == old(View())[k := v] && patch == old(patch)[k := Change.Put(v)]
      ensures logged ==> Logged(changelog) == Logged(old(changelog)) + {k}
    {
      Insert(k, Change.Put(v));
    }

    method Remove(k: Key)
      requires Valid()
      modifies this`patch, this`changelog
      ensures Valid() && View() == old(View()) - {k} && patch == old(patch)[k := Delete]
      ensures logged ==> Logged(changelog) == Logged(old(changelog)) + {k}
    {
      Insert(k, Delete);
    }

    /** Clears a family from a prefix on.  The entries of the patch under the prefix are dropped
        without a log; then every key of the snapshot from the prefix on is deleted, with a log. */
    method RemoveByPrefix(name: string, prefix: seq<Byte>)
      requires Valid()
      modifies this
      ensures Valid() && logged == old(logged)
      ensures View() == Cleared(snapshot, old(View()), name, prefix)
      ensures patch == Applied(snapshot, old(patch), Clear(name, prefix))
      ensures logged ==> base == old(base)
      ensures logged ==> Logged(changelog) == Logged(old(changelog)) + PassedKeys(snapshot, name, prefix)
      ensures logged ==> lost == old(lost) + (UnderKeys(old(patch), name, prefix) - Logged(old(changelog)))
    {
      ClearedView(snapshot, patch, name, prefix);
      DropUnder(name, prefix);
      DeleteAll(PassedKeys(snapshot, name, prefix));
    }

    /** The second loop of the clearing. */
    method DeleteAll(all: set<Key>)
      requires Valid()
      modifies this`patch, this`changelog
      ensures Valid() && patch == Deleting(old(patch), all)
      ensures logged ==> Logged(changelog) == Logged(old(changelog)) + all
    {
      hide Deleting, Undo, Logged;
      var keys := all;
      DeletingNone(patch);
      assert all - keys == {};
      while keys != {}
        invariant Valid() && keys <= all && patch == Deleting(old(patch), all - keys)
        invariant logged ==> Logged(changelog) == Logged(old(changelog)) + (all - keys)
        decreases |keys|
      {
        var k :| k in keys;
        DeletingOne(old(patch), all - keys, k);
        assert all - keys + {k} == all - (keys - {k});
        Insert(k, Delete);
        keys := keys - {k};
      }
      assert all - keys == all;
    }

    lemma DeletingNone(p: Patch)
      ensures Deleting(p, {}) == p
    {
    }

    lemma DeletingOne(p: Patch, keys: set<Key>, k: Key)
      ensures Deleting(p, keys)[k := Delete] == Deleting(p, keys + {k})
    {
    }

    /** The first loop of the clearing. */
    method DropUnder(name: string, prefix: seq<Byte>)
      requires Valid()
      modifies this
      ensures Valid() && logged == old(logged) && changelog == old(changelog) && base == old(base)
      ensures patch == old(patch) - UnderKeys(old(patch), name, prefix)
      ensures logged ==> lost == old(lost) + (UnderKeys(old(patch), name, prefix) - Logged(changelog))
    {
      ghost var before := patch;
      var keys := UnderKeys(patch, name, prefix);
      ghost var all := keys;
      while keys != {}
        invariant keys <= all && patch == before - (all - keys)
        invariant logged == old(logged) && changelog == old(changelog) && base == old(base) && lost == old(lost)
        decreases |keys|
      {
        var k :| k in keys;
        assert before - (all - keys) - {k} == before - (all - (keys - {k}));
        patch := patch - {k};
        keys := keys - {k};
      }
      assert all - keys == all;
      if logged {
        LoseUnlogged(before, changelog, all, base, lost);
        lost := lost + (all - Logged(changelog));
      }
    }

    /** Since the checkpoint, `ws` have been written. */
    ghost predicate Did(ws: seq<Write>)
      reads this
    {
      && logged && Logged(changelog) == LogsAll(snapshot, ws) && lost == Forgotten(snapshot, base, ws)
      && patch == AppliedAll(snapshot, base, ws)
    }

    /** Any of the writes. */
    method Perform(w: Write)
      requires Valid()
      modifies this
      ensures Valid() && logged == old(logged) && patch == Applied(snapshot, old(patch), w)
      ensures logged ==> base == old(base) && Logged(changelog) == Logged(old(changelog)) + Logs(snapshot, w)
      ensures logged ==> lost == old(lost) + (set k | k in old(patch) && Drops(w, k) && k !in Logged(old(changelog)))
    {
      hide Logged, Undo, PassedKeys;
      match w
      case Store(k, v) => Put(k, v);
      case Erase(k) => Remove(k);
      case Clear(name, prefix) => RemoveByPrefix(name, prefix);
    }

    method PerformLogged(w: Write, ghost ws: seq<Write>)
      requires Valid() && Did(ws)
      modifies this
      ensures Valid() && base == old(base) && Did(ws + [w])
    {
      hide Logged, Undo, Drops, Logs, Applied;
      ForgottenMore(snapshot, base, patch, changelog, ws, w);
      AppliedMore(snapshot, base, ws, w);
      Perform(w);
    }

    /** Whatever is written between a checkpoint and a rollback, the patch is as before exactly
        when no clearing meets an entry of it that no write before the clearing logged. */
    method Attempt(ws: seq<Write>)
      requires Valid() && !logged
      modifies this
      ensures Valid() && !logged
      ensures patch == old(patch) - Forgotten(snapshot, old(patch), ws)
      ensures patch == old(patch) <==> Undoable(snapshot, old(patch), ws)
    {
      var ok := Checkpoint();
      assert Did([]);
      for i := 0 to |ws|
        invariant Valid() && base == old(patch) && Did(ws[..i])
      {
        PerformLogged(ws[i], ws[..i]);
        assert ws[..i + 1] == ws[..i] + [ws[i]];
      }
      assert ws[..|ws|] == ws;
      ok := Rollback();
      UndoableExactly(snapshot, old(patch), ws);
    }

    /** Takes over the changes of another fork; not inside a checkpoint. */
    method Merge(more: Patch) returns (ok: bool)
      requires Valid()
      modifies this`patch
      ensures Valid() && ok == !logged && patch == if ok then old(patch) + more else old(patch)
      ensures ok ==> View() == Merged(old(View()), more)
    {
      MergedTwice(snapshot, patch, more);
      if logged {
        return false;
      }
      patch := patch + more;
      ok := true;
    }

    lemma LoseUnlogged(p: Patch, log: Log, gone: set<Key>, start: Patch, missing: set<Key>)
      requires missing <= start.Keys && Undo(p, log) == start - missing && gone <= p.Keys
      ensures missing + (gone - Logged(log)) <= start.Keys
      ensures Undo(p - gone, log) == start - (missing + (gone - Logged(log)))
    {
      UndoWithout(p, gone, log);
      forall k | k in gone - Logged(log) ensures k in start {
        UndoUnlogged(p, log, k);
      }
      assert start - missing - (gone - Logged(log)) == start - (missing + (gone - Logged(log)));
    }
  }

  /** A change from before the checkpoint that a rollback does not bring back. */
  method LostChange(k: Key, v: Value) returns (fork: Fork, before: Option<Value>, after: Option<Value>)
    ensures before == Some(v) && after == None
  {
    fork := new Fork(map[]);
    fork.Put(k, v);
    before := fork.Get(k);
    var ws := [Clear(k.name, k.bytes)];
    assert Drops(ws[0], k) && k !in LogsAll(map[], ws[..0]) && Forgets(map[], ws, k);
    fork.Attempt(ws);
    after := fork.Get(k);
  }
}
