/** The lease arbitration of internal/storage/lease.go: a refcount per bucket and
    a mark on the bucket being deleted, both behind one mutex. */
module Leases {

  /** The (date, key hash) identity of one trace file; stands for its canonical path. */
  datatype Bucket = Bucket(date: int, hash: string)

  /** What the mutex protects. A bucket with no entry in `refs` has count zero. */
  datatype Table = Table(refs: map<Bucket, int>, deleting: set<Bucket>) {
    function Count(k: Bucket): int {
      if k in refs then refs[k] else 0
    }

    predicate CanAcquire(k: Bucket) {
      k !in deleting
    }

    function Acquire(k: Bucket): Table {
      Table(refs[k := Count(k) + 1], deleting)
    }

    /** The locked half of Release. */
    function Decrement(k: Bucket): Table {
      var n := Count(k) - 1;
      Table(if n <= 0 then refs - {k} else refs[k := n], deleting)
    }

    predicate CanMark(k: Bucket) {
      Count(k) <= 0 && k !in deleting
    }

    function Mark(k: Bucket): Table {
      Table(refs, deleting + {k})
    }

    function Unmark(k: Bucket): Table {
      Table(refs, deleting - {k})
    }
  }

  /** No bucket is leased and marked at once, and no zero count lingers. */
  predicate Sound(t: Table) {
    && (forall k :: k in t.refs ==> t.refs[k] > 0)
    && (forall k :: k in t.deleting ==> k !in t.refs)
  }

  /** A refcounted hold on one bucket. */
  class Lease {
    const coord: Coordinator
    const key: Bucket
    var released: bool

    constructor (coord: Coordinator, key: Bucket)
      ensures this.coord == coord && this.key == key && !released
    {
      this.coord, this.key, this.released := coord, key, false;
    }

    /** Gives the hold back once, however often it is called. */
    method Release()
      requires coord.Valid()
      requires !released ==> this in coord.outstanding
      modifies this, coord
      ensures coord.Valid() && released
      ensures coord.outstanding == old(coord.outstanding) - {this}
      ensures coord.View() == if old(released) then old(coord.View()) else old(coord.View()).Decrement(key)
    {
      if released { return; }
      released := true;
      coord.Drop(this);
    }
  }

  class Coordinator {
    var refs: map<Bucket, int>
    var deleting: set<Bucket>
    ghost var outstanding: set<Lease>  // granted and not yet released

    constructor ()
      ensures Valid() && View() == Table(map[], {}) && outstanding == {}
    {
      refs, deleting, outstanding := map[], {}, {};
    }

    ghost function View(): Table
      reads this
    {
      Table(refs, deleting)
    }

    ghost function Holding(k: Bucket): set<Lease>
      reads this
    {
      set l | l in outstanding && l.key == k
    }

    /** The count of a bucket is the number of leases on it still out. */
    ghost predicate Valid()
      reads this, outstanding
    {
      && Sound(View())
      && (forall l :: l in outstanding ==> l.coord == this && !l.released)
      && (forall k :: View().Count(k) == |Holding(k)|)
    }

    method AcquireLease(k: Bucket) returns (lease: Lease?)
      requires Valid()
      modifies this
      ensures Valid()
      ensures lease == null <==> k in old(deleting)
      ensures lease == null ==> View() == old(View()) && outstanding == old(outstanding)
      ensures lease != null ==> fresh(lease) && lease.key == k && outstanding == old(outstanding) + {lease}
      ensures lease != null ==> View() == old(View()).Acquire(k)
    {
      if k in deleting { return null; }
      lease := new Lease(this, k);
      refs := refs[k := (if k in refs then refs[k] else 0) + 1];
      outstanding := outstanding + {lease};
      assert Holding(k) == old(Holding(k)) + {lease};
      assert forall j :: j != k ==> Holding(j) == old(Holding(j));
    }

    /** The locked half of Release: the count goes down by one and an entry that reaches zero goes. */
    method Drop(lease: Lease)
      requires lease in outstanding && lease.coord == this && lease.released
      requires Sound(View()) && (forall l :: l in outstanding - {lease} ==> l.coord == this && !l.released)
      requires forall k :: View().Count(k) == |Holding(k)|
      modifies this
      ensures outstanding == old(outstanding) - {lease} && View() == old(View()).Decrement(lease.key)
      ensures Valid()
    {
      var k := lease.key;
      assert lease in Holding(k);
      var n := (if k in refs then refs[k] else 0) - 1;
      refs := if n <= 0 then refs - {k} else refs[k := n];
      outstanding := outstanding - {lease};
      assert Holding(k) == old(Holding(k)) - {lease};
      assert forall j :: j != k ==> Holding(j) == old(Holding(j));
    }

    /** Succeeds exactly when no lease on the bucket is out and no mark is set. */
    method MarkDeleting(k: Bucket) returns (ok: bool)
      requires Valid()
      modifies this
      ensures Valid() && outstanding == old(outstanding)
      ensures ok <==> old(Holding(k)) == {} && k !in old(deleting)
      ensures View() == if ok then old(View()).Mark(k) else old(View())
    {
      if k in refs && refs[k] > 0 { return false; }
      assert Holding(k) == {};
      if k in deleting { return false; }
      deleting := deleting + {k};
      assert forall j :: Holding(j) == old(Holding(j));
      ok := true;
    }

    method UnmarkDeleting(k: Bucket)
      requires Valid()
      modifies this
      ensures Valid() && outstanding == old(outstanding)
      ensures View() == old(View()).Unmark(k)
    {
      deleting := deleting - {k};
      assert forall j :: Holding(j) == old(Holding(j));
    }

    method IsLeased(k: Bucket) returns (leased: bool)
      requires Valid()
      ensures leased <==> exists l :: l in outstanding && l.key == k
    {
      leased := k in refs && refs[k] > 0;
      assert leased ==> Holding(k) != {};
      assert !leased ==> Holding(k) == {};
      assert forall l :: l in outstanding && l.key == k ==> l in Holding(k);
    }
  }
}
