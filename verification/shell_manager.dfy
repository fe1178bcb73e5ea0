/**
 * `ShellManager`: the registry of interactive shells by id. The JavaScript
 * `Map` is an insertion-ordered list of entries with distinct ids; a shell is
 * identified by a serial number, and every shell created keeps the close hook
 * that was registered for it: "delete the id I was created under".
 */
module ShellManager {
  import opened Wrappers

  datatype Entry = Entry(id: string, shell: nat)

  /** The entries in `Map` order, each created shell's hook id, and the next serial number. */
  datatype Registry = Registry(entries: seq<Entry>, hooks: map<nat, string>, next: nat)

  const Empty: Registry := Registry([], map[], 0)

  function Ids(entries: seq<Entry>): (ids: seq<string>)
    ensures |ids| == |entries|
    ensures forall i :: 0 <= i < |entries| ==> ids[i] == entries[i].id
  {
    seq(|entries|, i requires 0 <= i < |entries| => entries[i].id)
  }

  predicate DistinctIds(entries: seq<Entry>) {
    forall i, j :: 0 <= i < j < |entries| ==> entries[i].id != entries[j].id
  }

  /**
   * Ids are distinct; each stored shell is one the registry created, and its
   * hook names the id it is stored under; hooks exist exactly for the shells
   * created so far.
   */
  ghost predicate Valid(r: Registry) {
    && DistinctIds(r.entries)
    && (forall i :: 0 <= i < |r.entries| ==> r.entries[i].shell in r.hooks && r.hooks[r.entries[i].shell] == r.entries[i].id)
    && (forall s: nat :: s in r.hooks <==> s < r.next)
  }

  lemma EmptyValid()
    ensures Valid(Empty) && ActiveShells(Empty) == []
  {
  }

  /** `shells.get(id)`. */
  function Find(entries: seq<Entry>, id: string): (r: Option<nat>)
    ensures r.None? <==> id !in Ids(entries)
    ensures r.Some? ==> Entry(id, r.value) in entries
    decreases |entries|
  {
    if |entries| == 0 then None
    else if entries[0].id == id then Some(entries[0].shell)
    else
      var r := Find(entries[1..], id);
      assert Ids(entries) == [entries[0].id] + Ids(entries[1..]);
      r
  }

  /** With distinct ids, the entry with a given id is the one `Find` reports. */
  lemma FindUnique(entries: seq<Entry>, id: string, shell: nat)
    requires DistinctIds(entries) && Entry(id, shell) in entries
    ensures Find(entries, id) == Some(shell)
  {
    var i :| 0 <= i < |entries| && entries[i] == Entry(id, shell);
    var j :| 0 <= j < |entries| && entries[j] == Entry(id, Find(entries, id).value);
    assert Ids(entries)[i] == id;
    assert i == j;
  }

  /** `shells.set(id, shell)`: an existing id keeps its position and gets the new shell; a new id goes last. */
  function Put(entries: seq<Entry>, id: string, shell: nat): (r: seq<Entry>)
    ensures id in Ids(entries) ==> |r| == |entries| && Ids(r) == Ids(entries)
    ensures id in Ids(entries) ==> forall i :: 0 <= i < |r| ==> r[i] == (if entries[i].id == id then Entry(id, shell) else entries[i])
    ensures id !in Ids(entries) ==> r == entries + [Entry(id, shell)]
  {
    if id in Ids(entries) then
      var r := seq(|entries|, i requires 0 <= i < |entries| => if entries[i].id == id then Entry(id, shell) else entries[i]);
      assert Ids(r) == Ids(entries);
      r
    else entries + [Entry(id, shell)]
  }

  /** `shells.delete(id)`: every other entry stays, in order. */
  function Remove(entries: seq<Entry>, id: string): (r: seq<Entry>)
    ensures id !in Ids(r)
    ensures forall e :: e in r <==> e in entries && e.id != id
    ensures id !in Ids(entries) ==> r == entries
    decreases |entries|
  {
    if |entries| == 0 then []
    else
      var rest := Remove(entries[1..], id);
      assert [entries[0]] + entries[1..] == entries;
      Cons(entries[0], entries[1..]);
      if entries[0].id == id then rest
      else
        Cons(entries[0], rest);
        [entries[0]] + rest
  }

  /** The ids and members of an entry list with one more entry in front. */
  lemma Cons(head: Entry, rest: seq<Entry>)
    ensures Ids([head] + rest) == [head.id] + Ids(rest)
    ensures forall e :: e in [head] + rest <==> e == head || e in rest
  {
  }

  lemma {:induction false} RemoveKeepsDistinct(entries: seq<Entry>, id: string)
    requires DistinctIds(entries)
    ensures DistinctIds(Remove(entries, id))
    decreases |entries|
  {
    if |entries| > 0 {
      RemoveKeepsDistinct(entries[1..], id);
      if entries[0].id != id {
        TailAvoidsHead(entries, Remove(entries[1..], id));
        ConsDistinct(entries[0], Remove(entries[1..], id));
      }
    }
  }

  /** Entries drawn from the tail of a registry never share the head's id. */
  lemma TailAvoidsHead(entries: seq<Entry>, sub: seq<Entry>)
    requires DistinctIds(entries) && |entries| > 0
    requires forall e :: e in sub ==> e in entries[1..]
    ensures forall e :: e in sub ==> e.id != entries[0].id
  {
    forall e | e in sub ensures e.id != entries[0].id {
      var k :| 0 <= k < |entries[1..]| && entries[1..][k] == e;
      assert entries[k + 1] == e;
    }
  }

  lemma ConsDistinct(head: Entry, rest: seq<Entry>)
    requires DistinctIds(rest)
    requires forall e :: e in rest ==> e.id != head.id
    ensures DistinctIds([head] + rest)
  {
    var r := [head] + rest;
    forall i, j | 0 <= i < j < |r| ensures r[i].id != r[j].id {
      assert r[j] == rest[j - 1];
      if i > 0 {
        assert r[i] == rest[i - 1];
      }
    }
  }

  /** `getShell(id)`. */
  function GetShell(r: Registry, id: string): Option<nat> {
    Find(r.entries, id)
  }

  /** `getActiveShells()`: the ids, in insertion order. */
  function ActiveShells(r: Registry): (ids: seq<string>)
    ensures forall id :: id in ids <==> GetShell(r, id).Some?
  {
    Ids(r.entries)
  }

  /**
   * `createShell(id)`: a fresh shell is stored under `id`, replacing any shell
   * already there, and its close hook is registered for `id`.
   */
  function CreateShell(r: Registry, id: string): (result: (Registry, nat))
    requires Valid(r)
    ensures Valid(result.0)
    ensures result.1 == r.next && result.1 !in r.hooks
    ensures GetShell(result.0, id) == Some(result.1)
    ensures forall other :: other != id ==> GetShell(result.0, other) == GetShell(r, other)
    ensures ActiveShells(result.0) == if id in ActiveShells(r) then ActiveShells(r) else ActiveShells(r) + [id]
  {
    var shell := r.next;
    var entries := Put(r.entries, id, shell);
    PutKeepsOthers(r.entries, id, shell);
    FindUnique(entries, id, shell);
    var r' := Registry(entries, r.hooks[shell := id], r.next + 1);
    CreatedRegistryValid(r, id, r');
    (r', shell)
  }

  lemma CreatedRegistryValid(r: Registry, id: string, r': Registry)
    requires Valid(r)
    requires r' == Registry(Put(r.entries, id, r.next), r.hooks[r.next := id], r.next + 1)
    ensures Valid(r')
  {
    PutKeepsOthers(r.entries, id, r.next);
    forall i | 0 <= i < |r'.entries|
      ensures r'.entries[i].shell in r'.hooks && r'.hooks[r'.entries[i].shell] == r'.entries[i].id
    {
      var e := r'.entries[i];
      if e != Entry(id, r.next) {
        assert e in r.entries;
        var k :| 0 <= k < |r.entries| && r.entries[k] == e;
        assert e.shell < r.next;
      }
    }
  }

  /** `set` on distinct ids keeps them distinct, stores the pair, and leaves every other id's value alone. */
  lemma PutKeepsOthers(entries: seq<Entry>, id: string, shell: nat)
    requires DistinctIds(entries)
    ensures DistinctIds(Put(entries, id, shell))
    ensures Entry(id, shell) in Put(entries, id, shell)
    ensures forall e :: e in Put(entries, id, shell) ==> e == Entry(id, shell) || e in entries
    ensures forall other :: other != id ==> Find(Put(entries, id, shell), other) == Find(entries, other)
  {
    var put := Put(entries, id, shell);
    if id in Ids(entries) {
      var k :| 0 <= k < |entries| && Ids(entries)[k] == id;
      assert put[k] == Entry(id, shell);
    } else {
      forall i, j | 0 <= i < j < |put| ensures put[i].id != put[j].id {
        if j == |entries| {
          assert Ids(entries)[i] == put[i].id;
        }
      }
      assert put[|entries|] == Entry(id, shell);
    }
    forall other | other != id ensures Find(put, other) == Find(entries, other) {
      match Find(entries, other)
      case None =>
        assert Ids(put) == Ids(entries) || Ids(put) == Ids(entries) + [id];
      case Some(s) =>
        var i :| 0 <= i < |entries| && entries[i] == Entry(other, s);
        assert put[i] == Entry(other, s);
        FindUnique(put, other, s);
    }
  }

  /** `delete` keeps the ids distinct and every other id's value. */
  lemma RemoveKeepsOthers(entries: seq<Entry>, id: string)
    requires DistinctIds(entries)
    ensures DistinctIds(Remove(entries, id))
    ensures forall other :: other != id ==> Find(Remove(entries, id), other) == Find(entries, other)
  {
    RemoveKeepsDistinct(entries, id);
    var removed := Remove(entries, id);
    forall other | other != id ensures Find(removed, other) == Find(entries, other) {
      match Find(entries, other)
      case None =>
      case Some(s) =>
        FindUnique(removed, other, s);
    }
  }

  /**
   * The `close` listener of shell `shell`: it deletes the id the shell was
   * created under, whichever shell is stored there now.
   */
  function OnClose(r: Registry, shell: nat): (r': Registry)
    requires Valid(r) && shell in r.hooks
    ensures Valid(r')
    ensures GetShell(r', r.hooks[shell]) == None
    ensures forall other :: other != r.hooks[shell] ==> GetShell(r', other) == GetShell(r, other)
  {
    var id := r.hooks[shell];
    RemoveKeepsOthers(r.entries, id);
    Registry(Remove(r.entries, id), r.hooks, r.next)
  }

  /**
   * `stopShell(id)`: nothing for an absent id; otherwise the shell is stopped
   * (its `close` runs the hook) and `id` is deleted.
   */
  function StopShell(r: Registry, id: string): (result: (Registry, Option<nat>))
    requires Valid(r)
    ensures Valid(result.0)
    ensures result.1 == GetShell(r, id)
    ensures GetShell(r, id).None? ==> result.0 == r
    ensures GetShell(result.0, id) == None
    ensures forall other :: other != id ==> GetShell(result.0, other) == GetShell(r, other)
  {
    match GetShell(r, id)
    case None => (r, None)
    case Some(shell) =>
      assert Entry(id, shell) in r.entries;
      var closed := OnClose(r, shell);
      var r' := Registry(Remove(closed.entries, id), closed.hooks, closed.next);
      assert r' == closed;
      (r', Some(shell))
  }

  function Shells(entries: seq<Entry>): (shells: seq<nat>)
    ensures |shells| == |entries|
    ensures forall i :: 0 <= i < |entries| ==> shells[i] == entries[i].shell
  {
    seq(|entries|, i requires 0 <= i < |entries| => entries[i].shell)
  }

  /**
   * In a valid registry the first shell's close hook deletes exactly the first
   * entry: the hook names the id that entry is stored under, and no later
   * entry has that id.
   */
  lemma CloseOfFirstRemovesIt(r: Registry)
    requires Valid(r) && |r.entries| > 0
    ensures r.entries[0].shell in r.hooks
    ensures OnClose(r, r.entries[0].shell) == Registry(r.entries[1..], r.hooks, r.next)
  {
    var id := r.entries[0].id;
    assert r.hooks[r.entries[0].shell] == id;
    assert id !in Ids(r.entries[1..]) by {
      forall k | 0 <= k < |r.entries[1..]| ensures Ids(r.entries[1..])[k] != id {
        assert r.entries[1..][k] == r.entries[k + 1];
      }
    }
    Cons(r.entries[0], r.entries[1..]);
    assert [r.entries[0]] + r.entries[1..] == r.entries;
  }

  /**
   * The `for (const [id, shell] of this.shells) await shell.stop()` loop over
   * the live `Map`. Each `stop()` emits `close`, whose hook deletes the entry
   * being visited, so the iterator's next entry is the first one left. The
   * result is the registry after the loop and the shells stopped, in order.
   * The loop visits every stored shell in `Map` order, deletes every entry
   * through the hooks, and leaves the hooks and the serial counter alone.
   */
  function StopLoop(r: Registry): (result: (Registry, seq<nat>))
    requires Valid(r)
    ensures Valid(result.0)
    ensures result.0.entries == []
    ensures result.0.hooks == r.hooks && result.0.next == r.next
    ensures result.1 == Shells(r.entries)
    decreases |r.entries|
  {
    if r.entries == [] then (r, [])
    else
      var first := r.entries[0];
      CloseOfFirstRemovesIt(r);
      var closed := OnClose(r, first.shell);
      var rest := StopLoop(closed);
      assert Shells(r.entries) == [first.shell] + Shells(r.entries[1..]);
      (rest.0, [first.shell] + rest.1)
  }

  /**
   * `stopAll()`: the loop above, then `shells.clear()`. Every stored shell is
   * stopped in `Map` order and the registry ends empty; the clear finds
   * nothing left, since the hooks already deleted each visited entry.
   */
  function StopAll(r: Registry): (result: (Registry, seq<nat>))
    requires Valid(r)
    ensures Valid(result.0)
    ensures ActiveShells(result.0) == []
    ensures |result.1| == |r.entries|
    ensures forall i :: 0 <= i < |r.entries| ==> result.1[i] == r.entries[i].shell
    ensures result.0.hooks == r.hooks
  {
    var (afterLoop, stopped) := StopLoop(r);
    (Registry([], afterLoop.hooks, afterLoop.next), stopped)
  }

  /** The clear that ends `stopAll` removes nothing the loop left behind. */
  lemma ClearAfterLoopIsNoOp(r: Registry)
    requires Valid(r)
    ensures StopAll(r).0 == StopLoop(r).0
  {
  }

  /**
   * The close hook deletes by id: when `createShell(id)` replaced a shell that
   * later closes, the replacement is deregistered although it is still open.
   */
  lemma StaleCloseDropsReplacement(r: Registry, id: string)
    requires Valid(r)
    ensures var (r1, first) := CreateShell(r, id);
      var (r2, second) := CreateShell(r1, id);
      && first != second
      && GetShell(r2, id) == Some(second)
      && first in r2.hooks
      && GetShell(OnClose(r2, first), id) == None
  {
  }

  /** A shell stored under `id` that closes removes exactly `id`. */
  lemma OwnCloseDeregisters(r: Registry, id: string)
    requires Valid(r) && GetShell(r, id).Some?
    ensures GetShell(r, id).value in r.hooks
    ensures OnClose(r, GetShell(r, id).value) == StopShell(r, id).0
  {
    assert Entry(id, GetShell(r, id).value) in r.entries;
  }
}
