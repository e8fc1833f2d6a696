/**
 Intrusive forward lists with a head and a tail pointer (lib/fwlist.c).

 The same code serves the task queues (`fw_*`, nodes are PCBs) and the timer request queue (`tfw_*`,
 nodes are timer requests), so one node class stands for both: `id` is the PCB id or the requesting task,
 `priority` the PCB's priority.  `items` is the sequence of nodes the queue stands for.

 Every method ending in `AsWritten` does exactly what the C function does.  `Remove` and `Len` are the functions
 their callers need: they differ from `fw_rm` and `fw_len` in one branch each.
 */
module FwList {
  import opened Common

  const U64_MAX: nat := 0xFFFF_FFFF_FFFF_FFFF

  class Node {
    const id: nat
    const priority: nat  // no list function changes it
    var next: Node?
    ghost var on: Queue?  // the queue the node is linked on

    constructor (id: nat, priority: nat)
      ensures this.id == id && this.priority == priority && next == null && on == null
    {
      this.id, this.priority, next, on := id, priority, null, null;
    }
  }

  /** The element an index names: an index equal to the length is clamped to the last element. */
  function Clamp(length: nat, idx: nat): nat
    requires 0 < length
  {
    if idx == length then length - 1 else idx
  }

  /** Return codes shared by `fw_rm` and `fw_at`: 1 for an empty list, 2 beyond the clamp, 0 otherwise. */
  function Code(length: nat, idx: nat): nat {
    if length == 0 then 1 else if idx > length then 2 else 0
  }

  /** The sequence `fw_rm` leaves behind: only the two ends are ever unlinked. */
  function EndUnlinked<T>(s: seq<T>, idx: nat): seq<T> {
    if Code(|s|, idx) != 0 then s
    else
      var k := Clamp(|s|, idx);
      if k == 0 || k == |s| - 1 then Without(s, k) else s
  }

  /** `fw_rm` does what its callers rely on exactly at the two ends of the list. */
  lemma UnlinksOnlyEnds<T>(s: seq<T>, idx: nat)
    requires idx < |s|
    ensures EndUnlinked(s, idx) == Without(s, idx) <==> idx == 0 || idx == |s| - 1
  {
  }

  datatype AtResult = Found(node: Node) | Failed(code: nat)
  datatype LenResult = Length(length: nat) | NullDereference
  datatype FindResult = Request(node: Node) | Empty | NotFound

  class Queue {
    var head: Node?
    var tail: Node?
    ghost var items: seq<Node>

    ghost predicate Valid()
      reads this, items
    {
      && Distinct(items)
      && (forall i :: 0 <= i < |items| ==> items[i].on == this)
      && (items == [] ==> head == null && tail == null)
      && (items != [] ==> head != null && tail != null && head == items[0] && tail == items[|items| - 1] && tail.next == null)
      && forall i {:trigger items[i].next} :: 0 <= i < |items| - 1 ==> items[i].next == items[i + 1] && items[i].next != null
    }

    constructor ()
      ensures Valid() && items == []
    {
      head, tail, items := null, null, [];
    }

    method PushBack(x: Node)
      requires Valid() && x.on == null && x.next == null
      modifies this, items`next, x`on
      ensures Valid() && items == old(items) + [x]
    {
      items := items + [x];
      x.on := this;
      if head == null && tail == null {
        head := x;
        tail := head;
        return;
      }
      tail.next := x;
      tail := x;
    }

    method PushFront(x: Node)
      requires Valid() && x.on == null && (items == [] ==> x.next == null)
      modifies this, x`next, x`on
      ensures Valid() && items == [x] + old(items)
    {
      items := [x] + items;
      x.on := this;
      if head == null && tail == null {
        head := x;
        tail := head;
        return;
      }
      x.next := head;
      head := x;
    }

    /** The cursor walk shared by `fw_rm` and `fw_at`: a 64-bit counter that starts by wrapping below zero. */
    method Walk(idx: nat) returns (code: nat, pointed: Node?, prev: Node?)
      requires Valid() && idx <= U64_MAX
      ensures code == Code(|items|, idx)
      ensures code == 0 ==> pointed == items[Clamp(|items|, idx)]
      ensures code == 0 && Clamp(|items|, idx) > 0 ==> prev == items[Clamp(|items|, idx) - 1]
    {
      pointed, prev := head, null;
      var i := if idx == 0 then U64_MAX else idx - 1;
      if pointed == null {
        return 1, null, null;
      }
      ghost var k := 0;
      while i != U64_MAX
        invariant k < |items| && k <= idx && pointed == items[k]
        invariant k > 0 ==> prev == items[k - 1]
        invariant i == if idx == k then U64_MAX else idx - k - 1
        decreases idx - k
      {
        if pointed.next == null {
          assert k == |items| - 1;
          if i != 0 {
            return 2, null, null;
          }
          break;
        }
        prev := pointed;
        pointed := pointed.next;
        k := k + 1;
        i := if i == 0 then U64_MAX else i - 1;
      }
      code := 0;
    }

    /** `fw_at`. */
    method AtAsWritten(idx: nat) returns (r: AtResult)
      requires Valid() && idx <= U64_MAX
      ensures Code(|items|, idx) == 0 ==> r == Found(items[Clamp(|items|, idx)])
      ensures Code(|items|, idx) != 0 ==> r == Failed(Code(|items|, idx))
    {
      var code, pointed, prev := Walk(idx);
      r := if code == 0 then Found(pointed) else Failed(code);
    }

    /** The two branches of `fw_rm` that unlink: the only element, the first one, the last one. */
    method UnlinkEnd(pointed: Node, prev: Node?, ghost k: nat)
      requires Valid() && k < |items| && pointed == items[k] && (k > 0 ==> prev == items[k - 1])
      requires k == 0 || k == |items| - 1
      modifies this, items`next, items`on
      ensures Valid() && items == Without(old(items), k) && pointed.next == null && pointed.on == null
    {
      if pointed == tail && pointed == head {
        head, tail := null, null;
        items := [];
      } else if pointed == head {
        head := pointed.next;
        pointed.next := null;
        items := items[1..];
      } else {
        tail := prev;
        prev.next := null;
        items := items[..|items| - 1];
      }
      pointed.on := null;
    }

    /** `fw_rm`: a middle element is left linked although the call reports success. */
    method RmAsWritten(idx: nat) returns (code: nat)
      requires Valid() && idx <= U64_MAX
      modifies this, items`next, items`on
      ensures Valid()
      ensures code == Code(|old(items)|, idx) && items == EndUnlinked(old(items), idx)
    {
      var pointed, prev;
      code, pointed, prev := Walk(idx);
      if code == 0 && (pointed == head || pointed == tail) {
        UnlinkEnd(pointed, prev, Clamp(|items|, idx));
      }
    }

    /** The branch `fw_rm` lacks: a middle element's predecessor is linked to its successor. */
    method UnlinkMiddle(pointed: Node, prev: Node, ghost k: nat)
      requires Valid() && 0 < k < |items| - 1 && pointed == items[k] && prev == items[k - 1]
      modifies items`next, this`items, pointed`on
      ensures Valid() && items == Without(old(items), k) && pointed.next == null && pointed.on == null
    {
      prev.next := pointed.next;
      pointed.next := null;
      pointed.on := null;
      items := Without(items, k);
    }

    /** `fw_rm` with the middle branch its callers rely on. */
    method Remove(idx: nat) returns (code: nat)
      requires Valid() && idx <= U64_MAX
      modifies this, items`next, items`on
      ensures Valid()
      ensures code == Code(|old(items)|, idx)
      ensures code != 0 ==> items == old(items)
      ensures code == 0 ==>
        var k := Clamp(|old(items)|, idx);
        items == Without(old(items), k) && old(items)[k].next == null && old(items)[k].on == null
    {
      var pointed, prev;
      code, pointed, prev := Walk(idx);
      if code == 0 {
        if pointed == head || pointed == tail {
          UnlinkEnd(pointed, prev, Clamp(|items|, idx));
        } else {
          UnlinkMiddle(pointed, prev, Clamp(|items|, idx));
        }
      }
    }

    /** `fw_len`: the loop test is inverted, so one node runs off the end and longer lists report one. */
    method LenAsWritten() returns (r: LenResult)
      requires Valid()
      ensures r == if |items| == 0 then Length(0) else if |items| == 1 then NullDereference else Length(1)
    {
      if head == null && tail == null {
        return Length(0);
      }
      // `while (temp->next == NULL)`: a first turn follows the null it has just tested for.
      if head.next == null {
        return NullDereference;
      }
      r := Length(1);
    }

    /** `fw_len` with its loop test turned round. */
    method Len() returns (length: nat)
      requires Valid()
      ensures length == |items|
    {
      if head == null && tail == null {
        return 0;
      }
      var temp := head;
      length := 1;
      while temp.next != null
        invariant 1 <= length <= |items| && temp == items[length - 1]
        decreases |items| - length
      {
        length := length + 1;
        temp := temp.next;
      }
    }

    /** `tfw_find`: the first request of a task. */
    method Find(id: nat) returns (r: FindResult)
      requires Valid()
      ensures r == Empty <==> items == []
      ensures r == NotFound <==> items != [] && forall k :: 0 <= k < |items| ==> items[k].id != id
      ensures r.Request? ==> exists k ::
        0 <= k < |items| && r.node == items[k] && items[k].id == id && forall j :: 0 <= j < k ==> items[j].id != id
    {
      var temp := head;
      if temp == null {
        return Empty;
      }
      ghost var k := 0;
      while true
        invariant k < |items| && temp == items[k]
        invariant forall j :: 0 <= j < k ==> items[j].id != id
        decreases |items| - k
      {
        if temp.id == id {
          return Request(temp);
        }
        if temp.next == null {
          break;
        }
        temp := temp.next;
        k := k + 1;
      }
      r := NotFound;
    }
  }
}
