/** shmarea.c: records of shared memory areas, counted by those who share them, and
    kept in a circular list. */
module ShmAreas {
  import opened Lists

  const ENOENT := 2

  /** struct snd_shm_area. shares and destroys count the calls for this record. */
  class ShmArea {
    const list: ListHead
    const shmid: int
    const ptr: int
    var share: int
    ghost var shares: nat
    ghost var destroys: nat

    constructor (list: ListHead, shmid: int, ptr: int)
      ensures this.list == list && this.shmid == shmid && this.ptr == ptr
      ensures share == 1 && shares == 0 && destroys == 0
    {
      this.list, this.shmid, this.ptr := list, shmid, ptr;
      share, shares, destroys := 1, 0, 0;
    }
  }

  function Nodes(areas: seq<ShmArea>): (s: seq<ListHead>)
    ensures |s| == |areas|
  {
    seq(|areas|, i requires 0 <= i < |areas| => areas[i].list)
  }

  lemma NodesConcat(a: seq<ShmArea>, b: seq<ShmArea>)
    ensures Nodes(a + b) == Nodes(a) + Nodes(b)
  {
  }

  /** A record in use has been shared once when it was made, and once more for each
      share, less the times it was destroyed. */
  ghost predicate Counted(live: seq<ShmArea>)
    reads live
  {
    && (forall i, j :: 0 <= i < j < |live| ==> live[i] != live[j])
    && (forall i :: 0 <= i < |live| ==> live[i].share == 1 + live[i].shares - live[i].destroys && live[i].share > 0)
  }

  /** A record that is no longer in use has been destroyed as often as it was shared,
      and its memory detached once. */
  ghost predicate Finished(detached: seq<ShmArea>, live: seq<ShmArea>)
    reads detached
  {
    && (forall k :: 0 <= k < |detached| ==> 1 + detached[k].shares == detached[k].destroys && detached[k].share == 0)
    && (forall i, j :: 0 <= i < j < |detached| ==> detached[i] != detached[j])
    && (forall i :: 0 <= i < |live| ==> live[i] !in detached)
  }

  /** The list shm_areas. live are the records in use, in the order they were made;
      detached those whose memory shmdt has been called for, once for each call. */
  class Registry {
    const head: ListHead
    ghost var live: seq<ShmArea>
    ghost var detached: seq<ShmArea>

    /** The list is the records in use. */
    ghost predicate Valid()
      reads this, live, detached, head, Nodes(live)
    {
      Ring([head] + Nodes(live)) && Counted(live) && Finished(detached, live)
    }

    /** static LIST_HEAD(shm_areas) */
    constructor ()
      ensures Valid() && live == [] && detached == [] && fresh(head)
    {
      var h := new ListHead();
      head, live, detached := h, [], [];
      new;
      assert [head] + Nodes(live) == [head];
    }

    /** snd_shm_area_create; memory says whether malloc has some. */
    method Create(shmid: int, ptr: int, memory: bool) returns (area: ShmArea?)
      requires Valid()
      modifies this`live, head, head.prev
      ensures Valid()
      ensures !memory ==> area == null && live == old(live)
      ensures memory ==> area != null && fresh(area) && live == old(live) + [area]
      ensures memory ==> area.shmid == shmid && area.ptr == ptr && area.share == 1
    {
      if !memory { return null; }
      ghost var nodes := [head] + Nodes(live);
      var node := new ListHead();
      assert node !in nodes;
      area := new ShmArea(node, shmid, ptr);
      Link(area);
    }

    /** The end of snd_shm_area_create. */
    method Link(area: ShmArea)
      requires Valid() && area !in live && area !in detached && area.list !in [head] + Nodes(live)
      requires area.share == 1 && area.shares == 0 && area.destroys == 0
      modifies this`live, area.list, head, head.prev
      ensures Valid() && live == old(live) + [area]
    {
      hide *;
      ValidIs();
      ListAddTail(area.list, head, [head] + Nodes(live));
      NodesConcat(live, [area]);
      NodesOne(area);
      assert [head] + Nodes(live) + [area.list] == [head] + (Nodes(live) + [area.list]);
      CountedNext(live, area, detached);
      live := live + [area];
      ValidIs();
    }

    lemma ValidIs()
      ensures Valid() <==> Ring([head] + Nodes(live)) && Counted(live) && Finished(detached, live)
    {
    }

    /** snd_shm_area_share */
    method Share(area: ShmArea?) returns (r: ShmArea?)
      requires Valid() && (area != null ==> area in live)
      modifies area
      ensures Valid() && r == area
      ensures area != null ==> area.shares == old(area.shares) + 1 && area.destroys == old(area.destroys)
      ensures area != null ==> area.share == old(area.share) + 1
    {
      if area == null { return null; }
      area.share := area.share + 1;
      area.shares := area.shares + 1;
      r := area;
    }

    /** snd_shm_area_destroy: the last one unlinks the record, detaches and frees it. */
    method Destroy(area: ShmArea?, ghost i: nat) returns (r: int)
      requires Valid() && (area != null ==> i < |live| && live[i] == area)
      modifies this`live, this`detached, area
      modifies if area != null then {area.list.next, area.list.prev} else {}
      ensures Valid()
      ensures area == null ==> r == -ENOENT && live == old(live) && detached == old(detached)
      ensures area != null ==> r == 0 && area.destroys == old(area.destroys) + 1 && area.shares == old(area.shares)
      ensures area != null ==> area.share == old(area.share) - 1
      ensures area != null && old(area.share) > 1 ==> live == old(live) && detached == old(detached)
      ensures area != null && old(area.share) == 1 ==>
                live == old(live[..i] + live[i + 1..]) && detached == old(detached) + [area]
    {
      if area == null { return -ENOENT; }
      area.share := area.share - 1;
      area.destroys := area.destroys + 1;
      if area.share != 0 { return 0; }
      LastGone(live, i, detached);
      Unlink(area, live[..i], live[i + 1..]);
      r := 0;
    }

    /** The end of snd_shm_area_destroy. */
    method Unlink(area: ShmArea, ghost a: seq<ShmArea>, ghost b: seq<ShmArea>)
      requires live == a + ([area] + b) && Ring([head] + Nodes(live))
      requires Counted(a + b) && Finished(detached + [area], a + b)
      modifies this`live, this`detached, area.list.next, area.list.prev
      ensures Valid() && live == a + b && detached == old(detached) + [area]
    {
      hide *;
      NodesConcat(a, [area] + b);
      NodesConcat([area], b);
      NodesConcat(a, b);
      NodesOne(area);
      assert [head] + Nodes(live) == ([head] + Nodes(a)) + ([area.list] + Nodes(b));
      ListDel(area.list, [head] + Nodes(a), Nodes(b));
      assert [head] + Nodes(a + b) == ([head] + Nodes(a)) + Nodes(b);
      live := a + b;
      detached := detached + [area];
      ValidIs();
    }
  }

  lemma Once<T>(s: seq<T>, x: T)
    requires x in s && forall i, j :: 0 <= i < j < |s| ==> s[i] != s[j]
    ensures multiset(s)[x] == 1
  {
    var k :| 0 <= k < |s| && s[k] == x;
    assert s == s[..k] + [x] + s[k + 1..];
    assert x !in s[..k] && x !in s[k + 1..];
  }

  /** The memory of a record is detached once, after one destroy for its making and one for
      each share, and the record is in use no more. */
  lemma DetachedOnce(r: Registry, area: ShmArea)
    requires r.Valid() && area in r.detached
    ensures multiset(r.detached)[area] == 1 && area !in r.live
    ensures area.share == 0 && area.destroys == area.shares + 1
  {
    assert Finished(r.detached, r.live);
    hide Registry.Valid;
    Once(r.detached, area);
  }

  /** And one in use has not been: there is a share for it. */
  lemma LiveShared(r: Registry, area: ShmArea)
    requires r.Valid() && area in r.live
    ensures multiset(r.live)[area] == 1 && area !in r.detached
    ensures area.share == 1 + area.shares - area.destroys && area.destroys <= area.shares
  {
    assert Finished(r.detached, r.live) && Counted(r.live);
    hide Registry.Valid;
    Once(r.live, area);
  }

  /** A record of which nobody is left goes from those in use to those detached. */
  lemma LastGone(live: seq<ShmArea>, i: nat, detached: seq<ShmArea>)
    requires i < |live| && (forall j, k :: 0 <= j < k < |live| ==> live[j] != live[k])
    requires forall j :: 0 <= j < |live| && j != i ==>
               live[j].share == 1 + live[j].shares - live[j].destroys && live[j].share > 0
    requires live[i].share == 0 && 1 + live[i].shares == live[i].destroys && Finished(detached, live)
    ensures live == live[..i] + ([live[i]] + live[i + 1..])
    ensures Counted(live[..i] + live[i + 1..]) && Finished(detached + [live[i]], live[..i] + live[i + 1..])
  {
    var rest := live[..i] + live[i + 1..];
    forall j | 0 <= j < |rest| ensures rest[j] == live[if j < i then j else j + 1] {}
  }

  lemma NodesOne(area: ShmArea)
    ensures Nodes([area]) == [area.list]
  {
  }

  lemma CountedNext(live: seq<ShmArea>, area: ShmArea, detached: seq<ShmArea>)
    requires Counted(live) && Finished(detached, live) && area !in live && area !in detached
    requires area.share == 1 && area.shares == 0 && area.destroys == 0
    ensures Counted(live + [area]) && Finished(detached, live + [area])
  {
  }
}
