/** The intrusive circular list, and the code of a message pipe inside its mutex. */
module MessageQueue {
  import opened WorkerPipe

  /** A link, with the message it is embedded in. */
  class Node {
    var prev: Node?
    var next: Node?
    var msg: Message

    constructor (m: Message)
      ensures msg == m
    {
      msg := m;
      prev, next := null, null;
    }
  }

  function Succ(i: nat, n: nat): nat
    requires i < n
  {
    if i + 1 == n then 0 else i + 1
  }

  /** The nodes, the head first, are linked in a circle. */
  ghost predicate Ring(nodes: seq<Node>)
    reads nodes
  {
    && nodes != []
    && (forall i, j :: 0 <= i < j < |nodes| ==> nodes[i] != nodes[j])
    && (forall i :: 0 <= i < |nodes| ==> nodes[i].next == nodes[Succ(i, |nodes|)])
    && (forall i :: 0 <= i < |nodes| ==> nodes[Succ(i, |nodes|)].prev == nodes[i])
  }

  ghost function Inserted(nodes: seq<Node>, el: Node, k: nat): (r: seq<Node>)
    requires k < |nodes|
    ensures |r| == |nodes| + 1 && r[k + 1] == el
    ensures forall i :: 0 <= i <= k ==> r[i] == nodes[i]
    ensures forall i :: k + 1 < i < |r| ==> r[i] == nodes[i - 1]
  {
    nodes[..k + 1] + [el] + nodes[k + 1..]
  }

  ghost function Removed(nodes: seq<Node>, k: nat): (r: seq<Node>)
    requires k < |nodes|
    ensures |r| == |nodes| - 1
    ensures forall i :: 0 <= i < k ==> r[i] == nodes[i]
    ensures forall i :: k <= i < |r| ==> r[i] == nodes[i + 1]
  {
    nodes[..k] + nodes[k + 1..]
  }

  /** init_list_head */
  method InitListHead(head: Node)
    modifies head
    ensures Ring([head]) && head.msg == old(head.msg)
  {
    head.prev := head;
    head.next := head;
  }

  /** Puts el between two neighbours. */
  method ListAddBetween(el: Node, prev: Node, next: Node, ghost nodes: seq<Node>, ghost k: nat)
    requires Ring(nodes) && el !in nodes && k < |nodes| && prev == nodes[k] && next == nodes[Succ(k, |nodes|)]
    modifies el, prev, next
    ensures Ring(Inserted(nodes, el, k))
    ensures el.msg == old(el.msg) && prev.msg == old(prev.msg) && next.msg == old(next.msg)
  {
    hide Inserted;
    prev.next := el;
    el.prev := prev;
    el.next := next;
    next.prev := el;
    ghost var r := Inserted(nodes, el, k);
    forall i | 0 <= i < |r|
      ensures r[i].next == r[Succ(i, |r|)] && r[Succ(i, |r|)].prev == r[i]
    {
      if i == k {
        assert r[Succ(i, |r|)] == el;
      } else if i == k + 1 {
        assert r[Succ(i, |r|)] == next;
      } else if i < k {
        assert r[i] == nodes[i] && r[i + 1] == nodes[i + 1] && Succ(i, |nodes|) == i + 1;
      } else {
        assert r[i] == nodes[i - 1] && r[Succ(i, |r|)] == nodes[Succ(i - 1, |nodes|)];
      }
    }
  }

  /** list_add_tail */
  method ListAddTail(el: Node, head: Node, ghost nodes: seq<Node>)
    requires Ring(nodes) && nodes[0] == head && el !in nodes
    modifies el, nodes
    ensures Ring(nodes + [el]) && el.msg == old(el.msg)
    ensures forall i :: 0 <= i < |nodes| ==> nodes[i].msg == old(nodes[i].msg)
  {
    ghost var n := |nodes|;
    assert Succ(n - 1, n) == 0;
    assert Inserted(nodes, el, n - 1) == nodes + [el];
    ListAddBetween(el, head.prev, head, nodes, n - 1);
  }

  /** list_del */
  method ListDel(el: Node, ghost nodes: seq<Node>, ghost k: nat)
    requires Ring(nodes) && 0 < k < |nodes| && el == nodes[k]
    modifies nodes
    ensures Ring(Removed(nodes, k)) && el.prev == null && el.next == null
    ensures forall i :: 0 <= i < |nodes| ==> nodes[i].msg == old(nodes[i].msg)
  {
    hide Removed;
    ghost var n := |nodes|;
    assert Succ(k - 1, n) == k;
    assert nodes[Succ(k - 1, n)].prev == nodes[k - 1];
    var prev, next := el.prev, el.next;
    prev.next := next;
    next.prev := prev;
    el.prev := null;
    el.next := null;
    ghost var r := Removed(nodes, k);
    forall i | 0 <= i < |r|
      ensures r[i].next == r[Succ(i, |r|)] && r[Succ(i, |r|)].prev == r[i]
    {
      if i < k - 1 {
        assert r[i] == nodes[i] && r[i + 1] == nodes[i + 1] && Succ(i, n) == i + 1;
      } else if i == k - 1 {
        assert r[i] == prev && r[Succ(i, |r|)] == next;
      } else {
        assert r[i] == nodes[i + 1] && r[Succ(i, |r|)] == nodes[Succ(i + 1, n)];
      }
    }
  }

  /** list_empty */
  method ListEmpty(head: Node, ghost nodes: seq<Node>) returns (empty: bool)
    requires Ring(nodes) && nodes[0] == head
    ensures empty <==> nodes == [head]
  {
    assert nodes[0].next == nodes[Succ(0, |nodes|)];
    empty := head.next == head;
    if |nodes| == 1 { assert nodes == [head]; }
  }

  function Payloads(nodes: seq<Node>): (q: seq<Message>)
    reads nodes
    ensures |q| == |nodes|
  {
    seq(|nodes|, i requires 0 <= i < |nodes| reads nodes => nodes[i].msg)
  }

  /** The memory of a message pipe that its mutex protects. */
  class MessagePipe {
    const head: Node
    var wake: nat
    ghost var nodes: seq<Node>

    ghost predicate Valid()
      reads this, nodes
    {
      Ring(nodes) && nodes[0] == head
    }

    ghost function Queue(): seq<Message>
      reads this, nodes
      requires Valid()
    {
      Payloads(nodes[1..])
    }

    /** js_new_message_pipe */
    constructor ()
      ensures Valid() && fresh(nodes) && Queue() == [] && wake == 0
    {
      head := new Node(Message(0, []));
      wake := 0;
      new;
      InitListHead(head);
      nodes := [head];
    }

    /** js_worker_postMessage inside the mutex; ok tells whether a write of the wake byte succeeds. */
    method Append(el: Node, ok: bool)
      requires Valid() && el !in nodes
      modifies this, el, nodes
      ensures Valid() && Queue() == old(Queue()) + [old(el.msg)]
      ensures wake == old(wake) + if old(Queue()) == [] && ok then 1 else 0
      ensures nodes == old(nodes) + [el]
    {
      var empty := ListEmpty(head, nodes);
      if empty && ok { wake := wake + 1; }
      ListAddTail(el, head, nodes);
      nodes := nodes + [el];
    }

    /** handle_posted_message inside the mutex, up to the unlock. */
    method TakeFirst() returns (el: Node?)
      requires Valid()
      modifies this, nodes
      ensures Valid()
      ensures el == null <==> old(Queue()) == []
      ensures el == null ==> Queue() == [] && wake == old(wake) && nodes == old(nodes)
      ensures el != null ==> el.msg == old(Queue())[0] && Queue() == old(Queue())[1..]
      ensures el != null ==> el in old(nodes) && el !in nodes && el.prev == null && el.next == null
      ensures el != null ==> wake == if Queue() != [] then old(wake) else if old(wake) <= 16 then 0 else old(wake) - 16
    {
      hide Inserted, Removed;
      var empty := ListEmpty(head, nodes);
      if empty { return null; }
      assert nodes[0].next == nodes[Succ(0, |nodes|)];
      el := head.next;
      ListDel(el, nodes, 1);
      nodes := Removed(nodes, 1);
      empty := ListEmpty(head, nodes);
      if empty { wake := if wake <= 16 then 0 else wake - 16; }
    }
  }
}
