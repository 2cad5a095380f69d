/** Singly linked lists of strings, as the path parser and the command parser build them. */
module StringLists {
  import opened Bytes

  /** A link of a list: where its memory is, its characters, and what is behind it. */
  class Node<T> {
    const place: T
    const text: array<Byte>
    var next: Node?<T>

    constructor (place: T, text: array<Byte>)
      ensures this.place == place && this.text == text && next == null
    {
      this.place := place;
      this.text := text;
      next := null;
    }
  }

  ghost predicate Linked<T>(first: Node?<T>, nodes: seq<Node<T>>)
    reads nodes
  {
    && first == (if nodes == [] then null else nodes[0])
    && (forall i, j | 0 <= i < j < |nodes| && j == i + 1 :: nodes[i].next == nodes[j])
    && (nodes != [] ==> nodes[|nodes| - 1].next == null)
  }

  lemma LinkedNone<T>()
    ensures Linked<T>(null, [])
  {
  }

  lemma LinkedOne<T>(node: Node<T>)
    requires node.next == null
    ensures Linked(node, [node])
  {
  }

  lemma NextOf<T>(first: Node?<T>, nodes: seq<Node<T>>, i: nat)
    requires Linked(first, nodes) && i < |nodes|
    ensures nodes[i].next == if i + 1 < |nodes| then nodes[i + 1] else null
  {
    if i + 1 < |nodes| {
      assert nodes[i].next == nodes[i + 1];
    }
  }

  lemma FirstOf<T>(first: Node?<T>, nodes: seq<Node<T>>)
    requires Linked(first, nodes)
    ensures first == if nodes == [] then null else nodes[0]
  {
  }

  lemma LastIsLast<T>(first: Node?<T>, nodes: seq<Node<T>>)
    requires Linked(first, nodes) && nodes != []
    ensures nodes[|nodes| - 1] in nodes && forall i | 0 <= i < |nodes| - 1 :: nodes[i] != nodes[|nodes| - 1]
  {
    forall i | 0 <= i < |nodes| - 1 ensures nodes[i].next != null {
      NextOf(first, nodes, i);
    }
  }

  /** Linking a new node behind the last one. */
  method Append<T>(first: Node?<T>, ghost nodes: seq<Node<T>>, last: Node<T>, node: Node<T>)
    requires Linked(first, nodes) && nodes != [] && last == nodes[|nodes| - 1]
    requires node.next == null && node !in nodes
    modifies last`next
    ensures Linked(first, nodes + [node])
  {
    LastIsLast(first, nodes);
    last.next := node;
  }

  // ---------------------------------------------------------------- texts

  /** A buffer of `size` characters that holds a text and zeros from its end on. */
  ghost predicate HasText<T>(node: Node<T>, size: nat, text: seq<Byte>)
    reads node.text
  {
    |text| < size && node.text[..] == text + ZeroBytes(size - |text|)
  }

  ghost predicate Texts<T>(nodes: seq<Node<T>>, size: nat, texts: seq<seq<Byte>>)
    reads set n <- nodes :: n.text
  {
    |nodes| == |texts| && forall i | 0 <= i < |nodes| :: HasText(nodes[i], size, texts[i])
  }

  lemma NoTexts<T>(size: nat)
    ensures Texts<T>([], size, [])
  {
  }

  lemma OneText<T>(node: Node<T>, size: nat, text: seq<Byte>)
    requires HasText(node, size, text)
    ensures Texts([node], size, [text])
  {
    hide HasText;
  }

  lemma OneMoreText<T>(nodes: seq<Node<T>>, size: nat, texts: seq<seq<Byte>>, node: Node<T>, text: seq<Byte>)
    requires Texts(nodes, size, texts) && HasText(node, size, text)
    ensures Texts(nodes + [node], size, texts + [text])
  {
    hide HasText;
  }

  lemma TextsLength<T>(nodes: seq<Node<T>>, size: nat, texts: seq<seq<Byte>>)
    requires Texts(nodes, size, texts)
    ensures |nodes| == |texts|
  {
  }
}
