/** I/O descriptors and the circular doubly linked lists they are kept on. */
module DescLists {
  import opened Bits

  class Desc {
    var opc: int
    var buf: int
    var qid: int
    var slba: nat
    var nlb: nat
    var sentinel: Desc?
    var next: Desc
    var prev: Desc
    var error: int
    var cidcount: int
    var cidmask: seq<bv64>
    /** The command ids of its pending commands, and all submissions made through it. */
    ghost var own: set<nat>
    ghost var mine: set<nat>

    constructor (words: nat)
      ensures error == 0 && cidcount == 0 && cidmask == Zeros(words)
      ensures own == {} && mine == {}
    {
      opc, buf, qid, slba, nlb, sentinel := 0, 0, 0, 0, 0, null;
      next, prev := this, this;
      error, cidcount, cidmask := 0, 0, Zeros(words);
      own, mine := {}, {};
    }
  }

  ghost predicate NoDuplicates(s: seq<Desc>) {
    forall i, j :: 0 <= i < j < |s| ==> s[i] != s[j]
  }

  /** The nodes of s are linked in a circle, in this order. */
  ghost predicate Circle(s: seq<Desc>)
    reads s`next, s`prev
  {
    && NoDuplicates(s)
    && (forall i {:trigger s[i].next} :: 0 <= i < |s| - 1 ==> s[i].next == s[i + 1])
    && (forall i {:trigger s[i].prev} :: 0 < i < |s| ==> s[i].prev == s[i - 1])
    && (s != [] ==> s[|s| - 1].next == s[0] && s[0].prev == s[|s| - 1])
  }

  /** head is the list pointer of the circle s. */
  ghost predicate IsList(head: Desc?, s: seq<Desc>)
    reads s`next, s`prev
  {
    && Circle(s)
    && head == if s == [] then null else s[0]
  }

  /** s without position k. */
  ghost function Removed(s: seq<Desc>, k: nat): (r: seq<Desc>)
    requires k < |s|
    ensures |r| == |s| - 1
    ensures forall i {:trigger r[i]} :: 0 <= i < |r| ==> r[i] == if i < k then s[i] else s[i + 1]
  {
    s[..k] + s[k + 1..]
  }

  /** Adding at the head pointer appends the node. */
  method ListAdd(head: Desc?, node: Desc, ghost s: seq<Desc>) returns (h: Desc?)
    requires IsList(head, s) && node !in s
    modifies node`next, node`prev, s`next, s`prev
    ensures IsList(h, s + [node])
  {
    if head != null {
      node.next := head;
      node.prev := head.prev;
      head.prev.next := node;
      head.prev := node;
      h := head;
    } else {
      node.prev := node;
      node.next := node;
      h := node;
    }
  }

  /** Deleting takes the node out at any position; the head pointer moves on when it was there. */
  method ListDel(head: Desc?, node: Desc, ghost s: seq<Desc>, ghost k: nat) returns (h: Desc?)
    requires IsList(head, s) && k < |s| && s[k] == node
    modifies s`next, s`prev
    ensures IsList(h, Removed(s, k))
    ensures node.next == old(node.next)
  {
    h := head;
    if node.next != node {
      node.next.prev := node.prev;
      node.prev.next := node.next;
      if head == node {
        h := node.next;
      }
    } else {
      h := null;
    }
  }
}
