/**
 * Flattening of the fetched locks into member records: one record per key,
 * carrying the key's own fields, the owner's address and the lock's address
 * and name. The per-lock lists are folded with `[...v, ...a]`, so the keys of
 * later locks come first while each lock keeps its own key order.
 *
 * The fetch itself is not modelled: the locks arrive as a value.
 */
module Members {

  datatype Owner = Owner(address: string)
  datatype Key = Key(owner: Owner, keyId: string, expiration: string)
  datatype Lock = Lock(address: string, name: string, keys: seq<Key>)

  /** A flat member record: the key's fields with the owner replaced by its address. */
  datatype Member = Member(owner: string, keyId: string, expiration: string, lockAddress: string, lockName: string)

  /** The record for one key of one lock. */
  function ToMember(lock: Lock, key: Key): (m: Member)
    ensures m.owner == key.owner.address
    ensures m.keyId == key.keyId && m.expiration == key.expiration
    ensures m.lockAddress == lock.address && m.lockName == lock.name
  {
    Member(key.owner.address, key.keyId, key.expiration, lock.address, lock.name)
  }

  /** The records of one lock, in its key order. */
  function LockMembers(lock: Lock): (ms: seq<Member>)
    ensures |ms| == |lock.keys|
    ensures forall j :: 0 <= j < |ms| ==> ms[j] == ToMember(lock, lock.keys[j])
  {
    seq(|lock.keys|, j requires 0 <= j < |lock.keys| => ToMember(lock, lock.keys[j]))
  }

  /** The per-lock record lists, index-aligned with the locks. */
  function Groups(locks: seq<Lock>): (gs: seq<seq<Member>>)
    ensures |gs| == |locks|
    ensures forall k :: 0 <= k < |gs| ==> gs[k] == LockMembers(locks[k])
  {
    seq(|locks|, k requires 0 <= k < |locks| => LockMembers(locks[k]))
  }

  /** Concatenation of a list of lists, front to back. */
  function Concat(vs: seq<seq<Member>>): seq<Member> {
    if vs == [] then [] else vs[0] + Concat(vs[1..])
  }

  function Reverse(vs: seq<seq<Member>>): (r: seq<seq<Member>>)
    ensures |r| == |vs|
  {
    if vs == [] then [] else Reverse(vs[1..]) + [vs[0]]
  }

  lemma {:induction false} ConcatAppend(a: seq<seq<Member>>, b: seq<seq<Member>>)
    ensures Concat(a + b) == Concat(a) + Concat(b)
  {
    if a == [] {
      assert a + b == b;
    } else {
      assert (a + b)[1..] == a[1..] + b;
      ConcatAppend(a[1..], b);
    }
  }

  /** The list of lists in reverse order, concatenated, peels its first list off the back. */
  lemma ConcatReverseStep(vs: seq<seq<Member>>)
    requires vs != []
    ensures Concat(Reverse(vs)) == Concat(Reverse(vs[1..])) + vs[0]
  {
    ConcatAppend(Reverse(vs[1..]), [vs[0]]);
    assert Concat([vs[0]]) == vs[0] + Concat([]);
  }

  /**
   * The fold `vs.reduce((a, v) => [...v, ...a], acc)`: each list is put in
   * front of everything gathered so far. The result is the lists in reverse
   * order, concatenated, followed by the initial accumulator.
   */
  function Reduce(vs: seq<seq<Member>>, acc: seq<Member>): (r: seq<Member>)
    ensures r == Concat(Reverse(vs)) + acc
  {
    if vs == [] then acc
    else
      ConcatReverseStep(vs);
      Reduce(vs[1..], vs[0] + acc)
  }

  /** Every key of every lock as a record; the keys of later locks first. */
  function GetMembers(locks: seq<Lock>): (ms: seq<Member>)
    ensures ms == Concat(Reverse(Groups(locks)))
  {
    Reduce(Groups(locks), [])
  }

  /** The number of keys held by a list of locks. */
  function TotalKeys(locks: seq<Lock>): nat {
    if locks == [] then 0 else |locks[0].keys| + TotalKeys(locks[1..])
  }

  lemma GroupsTail(locks: seq<Lock>)
    requires locks != []
    ensures Groups(locks)[1..] == Groups(locks[1..])
  {
  }

  /** There is one record per key. */
  lemma {:induction false} GetMembersLength(locks: seq<Lock>)
    ensures |GetMembers(locks)| == TotalKeys(locks)
  {
    if locks != [] {
      GetMembersCons(locks);
      GetMembersLength(locks[1..]);
    }
  }

  /** The records of the first lock come after those of all the others. */
  lemma GetMembersCons(locks: seq<Lock>)
    requires locks != []
    ensures GetMembers(locks) == GetMembers(locks[1..]) + LockMembers(locks[0])
  {
    ConcatReverseStep(Groups(locks));
    GroupsTail(locks);
  }

  /** Where key j of lock k lands: after the keys of every later lock. */
  function Index(locks: seq<Lock>, k: nat, j: nat): nat
    requires k < |locks|
  {
    TotalKeys(locks[k + 1..]) + j
  }

  /**
   * Key j of lock k is the record at Index(locks, k, j), with its owner's
   * address and its own lock's address and name.
   */
  lemma {:induction false} GetMembersAt(locks: seq<Lock>, k: nat, j: nat)
    requires k < |locks| && j < |locks[k].keys|
    ensures Index(locks, k, j) < |GetMembers(locks)|
    ensures GetMembers(locks)[Index(locks, k, j)] == ToMember(locks[k], locks[k].keys[j])
    ensures GetMembers(locks)[Index(locks, k, j)].owner == locks[k].keys[j].owner.address
    ensures GetMembers(locks)[Index(locks, k, j)].lockAddress == locks[k].address
    ensures GetMembers(locks)[Index(locks, k, j)].lockName == locks[k].name
  {
    GetMembersCons(locks);
    GetMembersLength(locks[1..]);
    if k == 0 {
      assert locks[1..] == locks[k + 1..];
    } else {
      assert locks[1..][k - 1 + 1..] == locks[k + 1..];
      GetMembersAt(locks[1..], k - 1, j);
    }
  }

  lemma {:induction false} TotalKeysSuffix(locks: seq<Lock>, a: nat, b: nat)
    requires a <= b <= |locks|
    ensures TotalKeys(locks[a..]) >= TotalKeys(locks[b..])
    decreases b - a
  {
    if a < b {
      assert locks[a..][1..] == locks[a + 1..];
      TotalKeysSuffix(locks, a + 1, b);
    }
  }

  /** Every key of a later lock comes before every key of an earlier one. */
  lemma LaterLocksFirst(locks: seq<Lock>, k1: nat, j1: nat, k2: nat, j2: nat)
    requires k1 < k2 < |locks|
    requires j1 < |locks[k1].keys| && j2 < |locks[k2].keys|
    ensures Index(locks, k2, j2) < Index(locks, k1, j1)
  {
    assert locks[k2..][1..] == locks[k2 + 1..];
    TotalKeysSuffix(locks, k1 + 1, k2);
  }

  /** Every record comes from some key: the position it holds is that key's Index. */
  lemma {:induction false} KeyAt(locks: seq<Lock>, p: nat) returns (k: nat, j: nat)
    requires p < |GetMembers(locks)|
    ensures k < |locks| && j < |locks[k].keys|
    ensures Index(locks, k, j) == p
  {
    GetMembersLength(locks);
    GetMembersLength(locks[1..]);
    var rest := TotalKeys(locks[1..]);
    if p < rest {
      var k', j' := KeyAt(locks[1..], p);
      assert locks[1..][k' + 1..] == locks[k' + 2..];
      k, j := k' + 1, j';
    } else {
      k, j := 0, p - rest;
    }
  }
}
