/** The sentinel doubly linked list of include/LinkList/linklist.hpp.

    A list owns two sentinel nodes, whose data is absent, and the nodes between them.
    The ghost field `chain` is the whole chain from the head sentinel to the tail
    sentinel, so the node at list position p is chain[p + 1]. */
module LinkLists {
  datatype Option<+T> = None | Some(value: T)

  class ListNode<T> {
    var prev: ListNode?<T>
    var next: ListNode?<T>
    var data: Option<T>

    constructor (d: Option<T>)
      ensures prev == null && next == null && data == d
    {
      prev, next, data := null, null, d;
    }

    method InsertAtNext(node: ListNode<T>)
      requires next != null && node != this && next != node
      modifies this, node, next
      ensures node.prev == this && node.next == old(next)
      ensures next == node && old(next).prev == node
      ensures this.data == old(this.data) && node.data == old(node.data) && old(next).data == old(next.data)
      ensures old(next) != this ==> prev == old(prev) && old(next).next == old(next.next)
    {
      node.prev := this;
      node.next := this.next;
      this.next.prev := node;
      this.next := node;
    }

    method InsertAtPrev(node: ListNode<T>)
      requires prev != null && node != this && prev != node
      modifies this, node, prev
      ensures node.next == this && node.prev == old(prev)
      ensures prev == node && old(prev).next == node
      ensures this.data == old(this.data) && node.data == old(node.data) && old(prev).data == old(prev.data)
      ensures old(prev) != this ==> next == old(next) && old(prev).prev == old(prev.prev)
    {
      node.next := this;
      node.prev := this.prev;
      this.prev.next := node;
      this.prev := node;
    }

    method RemoveSelf() returns (d: Option<T>)
      requires prev != null && next != null && prev != this && next != this && prev != next
      modifies this, prev, next
      ensures d == old(data) && prev == null && next == null && data == old(data)
      ensures old(prev).next == old(next) && old(next).prev == old(prev)
      ensures old(prev).prev == old(prev.prev) && old(next).next == old(next.next)
      ensures old(prev).data == old(prev.data) && old(next).data == old(next.data)
    {
      this.prev.next := this.next;
      this.next.prev := this.prev;
      this.prev := null;
      this.next := null;
      d := data;
    }
  }

  ghost predicate Distinct<T>(s: seq<ListNode<T>>) {
    forall i, j :: 0 <= i < j < |s| ==> s[i] != s[j]
  }

  lemma Elsewhere<T>(s: seq<ListNode<T>>, k: nat)
    requires Distinct(s) && k < |s|
    ensures forall i :: 0 <= i < |s| && i != k ==> s[i] != s[k]
  {
  }

  lemma DistinctWithout<T>(s: seq<ListNode<T>>, k: nat)
    requires Distinct(s) && k < |s|
    ensures Distinct(s[..k] + s[k + 1..])
  {
  }

  lemma DistinctWith<T>(s: seq<ListNode<T>>, k: nat, n: ListNode<T>)
    requires Distinct(s) && k <= |s| && n !in s
    ensures Distinct(s[..k] + [n] + s[k..])
  {
  }

  class LinkList<T> {
    const head: ListNode<T>
    const tail: ListNode<T>
    var size: nat
    ghost var chain: seq<ListNode<T>>
    ghost var Repr: set<ListNode<T>>

    ghost predicate Valid()
      reads this, Repr
    {
      && (forall i :: 0 <= i < |chain| ==> chain[i] in Repr)
      && |chain| == size + 2 && chain[0] == head && chain[size + 1] == tail
      && Distinct(chain)
      && (forall i {:trigger chain[i].next} :: 0 <= i <= size ==> chain[i].next == chain[i + 1])
      && (forall i {:trigger chain[i].prev} :: 1 <= i <= size + 1 ==> chain[i].prev == chain[i - 1])
      && head.prev == null && tail.next == null
      && head.data == None && tail.data == None
      && (forall i {:trigger chain[i].data} :: 1 <= i <= size ==> chain[i].data.Some?)
    }

    /** The abstract value: the data of the inner nodes in order. */
    ghost function Contents(): (s: seq<T>)
      requires Valid()
      reads this, Repr
      ensures |s| == size
      ensures forall i :: 0 <= i < size ==> s[i] == chain[i + 1].data.value
    {
      seq(size, i requires 0 <= i < size && Valid() reads this, Repr => chain[i + 1].data.value)
    }

    constructor ()
      ensures Valid() && fresh(Repr) && Contents() == []
    {
      var h := new ListNode<T>(None);
      var t := new ListNode<T>(None);
      h.next := t;
      t.prev := h;
      head, tail, size := h, t, 0;
      chain := [h, t];
      Repr := {h, t};
    }

    /** Walks i steps from the first node. */
    method Get(i: nat) returns (go: ListNode<T>)
      requires Valid() && i < size
      ensures go == chain[i + 1]
    {
      assert chain[0].next == chain[1];
      go := head.next;
      var left := i;
      while left > 0
        invariant 0 <= left <= i && go == chain[i - left + 1]
      {
        assert chain[i - left + 1].next == chain[i - left + 2];
        go := go.next;
        left := left - 1;
      }
    }

    method InsertAtBegin(d: T)
      requires Valid()
      modifies this, Repr
      ensures Valid() && Contents() == [d] + old(Contents())
      ensures |chain| == |old(chain)| + 1 && chain == [head, chain[1]] + old(chain)[1..]
      ensures fresh(Repr - old(Repr))
    {
      hide Distinct, Contents;
      var node := new ListNode<T>(Some(d));
      assert chain[0].next == chain[1];
      Elsewhere(chain, 0);
      Elsewhere(chain, 1);
      DistinctWith(chain, 1, node);
      assert chain[..1] + [node] + chain[1..] == [head, node] + chain[1..];
      head.InsertAtNext(node);
      size := size + 1;
      chain := [head, node] + chain[1..];
      Repr := Repr + {node};
    }

    method InsertAtTail(d: T)
      requires Valid()
      modifies this, Repr
      ensures Valid() && Contents() == old(Contents()) + [d]
      ensures |chain| == |old(chain)| + 1 && chain == old(chain)[..old(size) + 1] + [chain[size], tail]
      ensures fresh(Repr - old(Repr))
    {
      hide Distinct, Contents;
      var node := new ListNode<T>(Some(d));
      assert chain[size + 1].prev == chain[size];
      Elsewhere(chain, size);
      Elsewhere(chain, size + 1);
      DistinctWith(chain, size + 1, node);
      assert chain[..size + 1] + [node] + chain[size + 1..] == chain[..size + 1] + [node, tail];
      tail.InsertAtPrev(node);
      chain := chain[..size + 1] + [node, tail];
      size := size + 1;
      Repr := Repr + {node};
    }

    /** Inserts a detached node after the node at chain index k (k = 0 is the head sentinel). */
    method InsertAfter(node: ListNode<T>, inserted: ListNode<T>, ghost k: nat) returns (r: ListNode<T>)
      requires Valid() && k <= size && node == chain[k]
      requires inserted !in Repr && inserted.data.Some?
      modifies this, Repr, inserted
      ensures Valid() && r == inserted && chain == old(chain)[..k + 1] + [inserted] + old(chain)[k + 1..]
      ensures inserted.data == old(inserted.data) && Repr == old(Repr) + {inserted}
      ensures Contents() == old(Contents())[..k] + [inserted.data.value] + old(Contents())[k..]
    {
      hide Distinct, Contents;
      Splice(node, inserted, k);
      r := inserted;
    }

    /** The pointer writes and the new chain. */
    method Splice(node: ListNode<T>, inserted: ListNode<T>, ghost k: nat)
      requires Valid() && k <= size && node == chain[k]
      requires inserted !in Repr && inserted.data.Some?
      modifies this, Repr, inserted
      ensures Valid() && chain == old(chain)[..k + 1] + [inserted] + old(chain)[k + 1..]
      ensures Repr == old(Repr) + {inserted}
      ensures forall n :: n in Repr ==> n.data == old(n.data)
    {
      hide Distinct;
      assert chain[k].next == chain[k + 1];
      Elsewhere(chain, k);
      Elsewhere(chain, k + 1);
      DistinctWith(chain, k + 1, inserted);
      size := size + 1;
      node.InsertAtNext(inserted);
      chain := chain[..k + 1] + [inserted] + chain[k + 1..];
      Repr := Repr + {inserted};
    }

    method Begin() returns (n: ListNode<T>)
      requires Valid()
      ensures n == chain[1]
    {
      assert chain[0].next == chain[1];
      n := head.next;
    }

    /** Unlinks the node at list position p and returns its successor.  No other node
        changes place relative to its neighbours, so iterators to other nodes stay good. */
    method Remove(t: ListNode<T>, ghost p: nat) returns (nxt: ListNode<T>)
      requires Valid() && p < size && t == chain[p + 1]
      modifies this, Repr
      ensures Valid() && chain == old(chain)[..p + 1] + old(chain)[p + 2..] && Repr == old(Repr)
      ensures nxt == chain[p + 1]
      ensures Contents() == old(Contents())[..p] + old(Contents())[p + 1..]
    {
      hide Distinct, Contents;
      assert chain[p + 1].next == chain[p + 2] && chain[p + 1].prev == chain[p];
      Elsewhere(chain, p);
      Elsewhere(chain, p + 1);
      Elsewhere(chain, p + 2);
      DistinctWithout(chain, p + 1);
      nxt := t.next;
      size := size - 1;
      var d := t.RemoveSelf();
      chain := chain[..p + 1] + chain[p + 2..];
    }

    /** A write through a node's data pointer. */
    method SetData(t: ListNode<T>, d: T, ghost p: nat)
      requires Valid() && p < size && t == chain[p + 1]
      modifies t
      ensures Valid() && Contents() == old(Contents())[p := d]
      ensures t.next == old(t.next) && t.prev == old(t.prev)
    {
      hide Distinct, Contents;
      Elsewhere(chain, p + 1);
      t.data := Some(d);
    }
  }
}
