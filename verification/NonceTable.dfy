/** The kernel's table of consumed nonces: open addressing with linear probing and no deletion. */
module NonceTable {
  import opened Basics

  const CAPACITY: nat := 2048

  // ---------- hashing ----------

  const MIX_A: bv64 := 0xbf58476d1ce4e5b9
  const MIX_B: bv64 := 0x94d049bb133111eb

  function Mix64(value: bv64): bv64 {
    var a := (value ^ (value >> 30)) * MIX_A;
    var b := (a ^ (a >> 27)) * MIX_B;
    b ^ (b >> 31)
  }

  /** The slot at which probing for a nonce starts: the low eleven bits of the mixed limbs. */
  function HomeSlot(n: Nonce): nat {
    (Mix64((n.high as bv64) ^ Mix64(n.low as bv64)) as int) % CAPACITY
  }

  // ---------- probing ----------

  /** The slot reached after `k` probes from `h`. */
  function At(h: nat, k: nat): (i: nat)
    requires h < CAPACITY && k < CAPACITY
    ensures i < CAPACITY
  {
    if h + k < CAPACITY then h + k else h + k - CAPACITY
  }

  /** How many probes lead from `h` to `i`. */
  function Distance(h: nat, i: nat): (k: nat)
    requires h < CAPACITY && i < CAPACITY
    ensures k < CAPACITY && At(h, k) == i
  {
    if h <= i then i - h else i + CAPACITY - h
  }

  /** Every slot from `h` up to but not including `i`, in probe order, is taken. */
  ghost predicate PathTaken(used: seq<bool>, h: nat, i: nat)
    requires |used| == CAPACITY && h < CAPACITY && i < CAPACITY
  {
    forall k: nat :: k < Distance(h, i) ==> used[At(h, k)]
  }

  ghost function UsedSlots(used: seq<bool>): set<nat>
    requires |used| == CAPACITY
  {
    set i: nat | i < CAPACITY && used[i]
  }

  /** The nonces a table holds. */
  ghost function Members(keys: seq<Nonce>, used: seq<bool>): set<Nonce>
    requires |keys| == |used| == CAPACITY
  {
    set i: nat | i < CAPACITY && used[i] :: keys[i]
  }

  function Home(hash: Nonce -> nat, n: Nonce): (h: nat)
    ensures h < CAPACITY
  {
    hash(n) % CAPACITY
  }

  /** No nonce occurs twice, and each is reached by probing from its home slot. */
  ghost predicate Probed(hash: Nonce -> nat, keys: seq<Nonce>, used: seq<bool>)
    requires |keys| == |used| == CAPACITY
  {
    && (forall i: nat, j: nat :: i < j < CAPACITY && used[i] && used[j] ==> keys[i] != keys[j])
    && (forall i: nat :: i < CAPACITY && used[i] ==> PathTaken(used, Home(hash, keys[i]), i))
  }

  /** A probe that meets a free slot before the nonce proves it absent: its own path would be taken. */
  lemma FreeSlotMeansAbsent(hash: Nonce -> nat, keys: seq<Nonce>, used: seq<bool>, nonce: Nonce, index: nat)
    requires |keys| == |used| == CAPACITY && Probed(hash, keys, used)
    requires index < CAPACITY && !used[index]
    requires forall k: nat :: k < Distance(Home(hash, nonce), index) ==> keys[At(Home(hash, nonce), k)] != nonce
    ensures nonce !in Members(keys, used)
  {
    var h := Home(hash, nonce);
    forall i: nat | i < CAPACITY && used[i] ensures keys[i] != nonce {
      assert At(h, Distance(h, index)) == index && At(h, Distance(h, i)) == i;
      assert Distance(h, i) < Distance(h, index) || PathTaken(used, h, i) ==> Distance(h, i) <= Distance(h, index);
    }
  }

  lemma FullPathMeansFull(used: seq<bool>, h: nat)
    requires |used| == CAPACITY && h < CAPACITY
    requires forall k: nat :: k < CAPACITY ==> used[At(h, k)]
    ensures |UsedSlots(used)| == CAPACITY
  {
    forall i: nat | i < CAPACITY ensures used[i] {
      assert At(h, Distance(h, i)) == i;
    }
    AllSlots(UsedSlots(used), CAPACITY);
  }

  lemma {:induction false} AllSlots(s: set<nat>, n: nat)
    requires forall i: nat :: i in s <==> i < n
    ensures |s| == n
  {
    if n == 0 {
      assert s == {};
    } else {
      AllSlots(s - {n - 1}, n - 1);
      assert n - 1 in s;
    }
  }

  /** Filling the free slot at the end of a nonce's path adds that nonce and keeps all others reachable. */
  lemma InsertKeeps(hash: Nonce -> nat, keys: seq<Nonce>, used: seq<bool>, index: nat, nonce: Nonce)
    requires |keys| == |used| == CAPACITY && Probed(hash, keys, used)
    requires index < CAPACITY && !used[index] && nonce !in Members(keys, used)
    requires PathTaken(used, Home(hash, nonce), index)
    ensures Probed(hash, keys[index := nonce], used[index := true])
    ensures Members(keys[index := nonce], used[index := true]) == Members(keys, used) + {nonce}
    ensures UsedSlots(used[index := true]) == UsedSlots(used) + {index}
  {
    var ks, us := keys[index := nonce], used[index := true];
    forall i: nat | i < CAPACITY && us[i] ensures PathTaken(us, Home(hash, ks[i]), i) {
      assert PathTaken(used, Home(hash, ks[i]), i);
    }
    forall n | n in Members(keys, used) ensures n in Members(ks, us) {
      var i: nat :| i < CAPACITY && used[i] && keys[i] == n;
      assert us[i] && ks[i] == n;
    }
    assert us[index] && ks[index] == nonce;
  }

  /** `hash` is any function of nonces; the kernel uses HomeSlot. */
  class Table {
    const hash: Nonce -> nat
    const keys: array<Nonce>
    const used: array<bool>
    var count: nat

    ghost function Contents(): set<Nonce>
      requires keys.Length == used.Length == CAPACITY
      reads keys, used
    {
      Members(keys[..], used[..])
    }

    ghost predicate Valid()
      reads this, keys, used
    {
      && keys.Length == used.Length == CAPACITY
      && Probed(hash, keys[..], used[..])
      && count == |UsedSlots(used[..])| == |Contents()|
    }

    constructor (hash: Nonce -> nat)
      ensures Valid() && Contents() == {} && count == 0
      ensures fresh(keys) && fresh(used) && this.hash == hash
    {
      this.hash := hash;
      keys := new Nonce[CAPACITY](i => Nonce(0, 0));
      used := new bool[CAPACITY](i => false);
      count := 0;
      new;
      assert UsedSlots(used[..]) == {};
      assert Contents() == {};
    }

    /** `nonce_slot`: found iff the nonce was consumed; otherwise the slot where it belongs. The sentinel CAPACITY
        is returned only by a table without a free slot. */
    method Slot(nonce: Nonce) returns (index: nat, found: bool)
      requires Valid()
      ensures found <==> nonce in Contents()
      ensures found ==> index < CAPACITY && used[index] && keys[index] == nonce
      ensures !found && index < CAPACITY ==> !used[index] && PathTaken(used[..], Home(hash, nonce), index)
      ensures count < CAPACITY ==> index < CAPACITY
      ensures index <= CAPACITY
    {
      var h := Home(hash, nonce);
      index := h;
      var probe: nat := 0;
      while probe < CAPACITY
        invariant probe <= CAPACITY
        invariant probe < CAPACITY ==> index == At(h, probe)
        invariant forall k: nat :: k < probe ==> used[At(h, k)] && keys[At(h, k)] != nonce
      {
        if !used[index] {
          FreeSlotMeansAbsent(hash, keys[..], used[..], nonce, index);
          return index, false;
        }
        if keys[index] == nonce {
          return index, true;
        }
        index := if index + 1 < CAPACITY then index + 1 else 0;
        probe := probe + 1;
      }
      FullPathMeansFull(used[..], h);
      forall i: nat | i < CAPACITY ensures keys[i] != nonce {
        assert At(h, Distance(h, i)) == i;
      }
      return CAPACITY, false;
    }

    /** Records a nonce in the slot that `Slot` chose for it. */
    method Insert(index: nat, nonce: Nonce)
      requires Valid() && index < CAPACITY && !used[index]
      requires nonce !in Contents() && PathTaken(used[..], Home(hash, nonce), index)
      modifies this, keys, used
      ensures Valid()
      ensures Contents() == old(Contents()) + {nonce} && count == old(count) + 1
    {
      InsertKeeps(hash, keys[..], used[..], index, nonce);
      ghost var ks, us := keys[..], used[..];
      keys[index] := nonce;
      used[index] := true;
      count := count + 1;
      assert keys[..] == ks[index := nonce] && used[..] == us[index := true];
    }

    /** Forgets every nonce. */
    method Clear()
      requires Valid()
      modifies this, keys, used
      ensures Valid() && Contents() == {} && count == 0
    {
      forall i | 0 <= i < used.Length {
        used[i] := false;
      }
      forall i | 0 <= i < keys.Length {
        keys[i] := Nonce(0, 0);
      }
      count := 0;
      assert UsedSlots(used[..]) == {};
      assert Contents() == {};
    }
  }
}
