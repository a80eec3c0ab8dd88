/** The administrator list as a fold over the log (`src/auth/auth.go`). */
module Auth {
  import opened GoText
  import opened Blocks
  import opened ChainStore

  const ADMIN_ADD := "ADMIN_ADD:"
  const ADMIN_REMOVE := "ADMIN_REMOVE:"

  function Remove(admins: seq<string>, key: string): (left: seq<string>)
    ensures forall k :: k in left <==> k in admins && k != key
  {
    if admins == [] then []
    else
      var rest := Remove(admins[1..], key);
      assert admins == [admins[0]] + admins[1..];
      if admins[0] != key then [admins[0]] + rest else rest
  }

  lemma {:induction false} RemoveSnoc(admins: seq<string>, last: string, key: string)
    ensures Remove(admins + [last], key) == Remove(admins, key) + (if last != key then [last] else [])
  {
    if admins != [] {
      assert (admins + [last])[1..] == admins[1..] + [last];
      RemoveSnoc(admins[1..], last, key);
    }
  }

  /** The list after one more block. */
  function Step(admins: seq<string>, data: string): seq<string> {
    if HasPrefix(data, ADMIN_ADD) then admins + [TrimPrefix(data, ADMIN_ADD)]
    else if HasPrefix(data, ADMIN_REMOVE) then Remove(admins, TrimPrefix(data, ADMIN_REMOVE))
    else admins
  }

  function Admins(log: seq<string>): seq<string> {
    if log == [] then [] else Step(Admins(log[..|log| - 1]), log[|log| - 1])
  }

  /** The whole data of the two kinds of event for one key. */
  predicate IsEventFor(data: string, key: string) {
    data == "ADMIN_ADD:" + key || data == "ADMIN_REMOVE:" + key
  }

  /** `i` is the last event for `key`. */
  ghost predicate LastEventAt(log: seq<string>, key: string, i: nat) {
    && i < |log| && IsEventFor(log[i], key)
    && forall j :: i < j < |log| ==> !IsEventFor(log[j], key)
  }

  lemma EventText(data: string, key: string)
    ensures data == ADMIN_ADD + key <==> HasPrefix(data, ADMIN_ADD) && TrimPrefix(data, ADMIN_ADD) == key
    ensures data == ADMIN_REMOVE + key <==> HasPrefix(data, ADMIN_REMOVE) && TrimPrefix(data, ADMIN_REMOVE) == key
    ensures !(HasPrefix(data, ADMIN_ADD) && HasPrefix(data, ADMIN_REMOVE))
  {
    assert (ADMIN_ADD + key)[|ADMIN_ADD|..] == key && (ADMIN_REMOVE + key)[|ADMIN_REMOVE|..] == key;
    assert ADMIN_ADD[6] == 'A' && ADMIN_REMOVE[6] == 'R';
    if HasPrefix(data, ADMIN_ADD) {
      assert data == ADMIN_ADD + data[|ADMIN_ADD|..];
    }
    if HasPrefix(data, ADMIN_REMOVE) {
      assert data == ADMIN_REMOVE + data[|ADMIN_REMOVE|..];
    }
  }

  /** A key is an administrator exactly when the last event for it is an ADD. */
  lemma {:induction false} AdminExactlyWhenLastEventAdds(log: seq<string>, key: string)
    ensures key in Admins(log) <==> exists i: nat :: LastEventAt(log, key, i) && log[i] == "ADMIN_ADD:" + key
  {
    if log != [] {
      var front, last := log[..|log| - 1], log[|log| - 1];
      AdminExactlyWhenLastEventAdds(front, key);
      EventText(last, key);
      if IsEventFor(last, key) {
        assert LastEventAt(log, key, |log| - 1);
      } else {
        assert forall j :: 0 <= j < |front| ==> log[j] == front[j];
        assert forall i: nat :: LastEventAt(log, key, i) <==> LastEventAt(front, key, i);
        assert key in Admins(log) <==> key in Admins(front);
      }
    }
  }

  lemma AdminsAfterAppend(log: seq<string>, data: string)
    ensures Admins(log + [data]) == Step(Admins(log), data)
  {}

  /** What `AddAdmin` appends to the room's log. */
  function AddAdminBlocks(seen: seq<string>, key: string): seq<string> {
    if key in Admins(seen) then [] else [ADMIN_ADD + key]
  }

  function RemoveAdminBlocks(seen: seq<string>, key: string): seq<string> {
    if key in Admins(seen) then [ADMIN_REMOVE + key] else []
  }

  /** When the chain handed in is the room's chain, adding makes exactly this
      key an administrator and removing takes exactly this key away. */
  lemma ChangeAffectsOneKey(log: seq<string>, key: string, other: string)
    ensures other in Admins(log + AddAdminBlocks(log, key)) <==> other in Admins(log) || other == key
    ensures other in Admins(log + RemoveAdminBlocks(log, key)) <==> other in Admins(log) && other != key
  {
    assert log + [] == log;
    EventText(ADMIN_ADD + key, key);
    EventText(ADMIN_REMOVE + key, key);
    AdminsAfterAppend(log, ADMIN_ADD + key);
    AdminsAfterAppend(log, ADMIN_REMOVE + key);
  }

  class Authority {
    var administrators: seq<string>
    const store: Blockchains

    constructor (store: Blockchains)
      ensures this.store == store && administrators == []
    {
      this.store := store;
      administrators := [];
    }

    method LoadAdminsFromBlockchain(chain: seq<Block>)
      modifies this
      ensures administrators == Admins(Log(chain))
    {
      administrators := [];
      var n := 0;
      while n < |chain|
        invariant 0 <= n <= |chain|
        invariant administrators == Admins(Log(chain)[..n])
      {
        var data := chain[n].data;
        assert Log(chain)[..n + 1] == Log(chain)[..n] + [data];
        AdminsAfterAppend(Log(chain)[..n], data);
        if HasPrefix(data, ADMIN_ADD) {
          administrators := administrators + [TrimPrefix(data, ADMIN_ADD)];
        } else if HasPrefix(data, ADMIN_REMOVE) {
          var publicKey := TrimPrefix(data, ADMIN_REMOVE);
          var newAdmins: seq<string> := [];
          var i := 0;
          while i < |administrators|
            modifies {}
            invariant 0 <= i <= |administrators|
            invariant newAdmins == Remove(administrators[..i], publicKey)
          {
            assert administrators[..i + 1] == administrators[..i] + [administrators[i]];
            RemoveSnoc(administrators[..i], administrators[i], publicKey);
            if administrators[i] != publicKey {
              newAdmins := newAdmins + [administrators[i]];
            }
            i := i + 1;
          }
          assert administrators[..i] == administrators;
          administrators := newAdmins;
        }
        n := n + 1;
      }
      assert Log(chain)[..n] == Log(chain);
    }

    method IsAdmin(publicKey: string) returns (r: bool)
      ensures r <==> publicKey in administrators
    {
      var i := 0;
      while i < |administrators|
        invariant 0 <= i <= |administrators|
        invariant publicKey !in administrators[..i]
      {
        if administrators[i] == publicKey {
          return true;
        }
        i := i + 1;
      }
      return false;
    }

    method AddAdmin(publicKey: string, chain: seq<Block>, room: string, now: string)
      requires View(store.State(), room) != []
      modifies this, store
      ensures administrators == Admins(Log(chain))
      ensures store.State() ==
              if publicKey in Admins(Log(chain)) then old(store.State())
              else Added(old(store.State()), room, ADMIN_ADD + publicKey, now)
    {
      LoadAdminsFromBlockchain(chain);
      var already := IsAdmin(publicKey);
      if already {
        return;
      }
      store.AddBlock(ADMIN_ADD + publicKey, room, now);
    }

    method RemoveAdmin(publicKey: string, chain: seq<Block>, room: string, now: string)
      requires View(store.State(), room) != []
      modifies this, store
      ensures administrators == Admins(Log(chain))
      ensures store.State() ==
              if publicKey !in Admins(Log(chain)) then old(store.State())
              else Added(old(store.State()), room, ADMIN_REMOVE + publicKey, now)
    {
      LoadAdminsFromBlockchain(chain);
      var present := IsAdmin(publicKey);
      if !present {
        return;
      }
      store.AddBlock(ADMIN_REMOVE + publicKey, room, now);
    }
  }
}
