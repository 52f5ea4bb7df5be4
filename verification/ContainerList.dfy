/**
  The list of containers as `src/container.c` keeps it: nodes linked by `next`, with a head
  and a tail pointer.  The methods relink the nodes; their contracts say what
  happens to the sequence of nodes that can be reached from the head.
*/
module ContainerList {
  import opened Sequences
  import opened Metadata

  class Container {
    var record: Record
    var next: Container?

    constructor (record: Record)
      ensures this.record == record && next == null
    {
      this.record := record;
      this.next := null;
    }
  }

  class List {
    var head: Container?
    var tail: Container?
    ghost var nodes: seq<Container>
    ghost var records: seq<Record>

    /** `nodes` is the chain from head to null, without repetition, and tail is its last node. */
    ghost predicate Valid()
      reads this, nodes
    {
      && |records| == |nodes| && (forall i :: 0 <= i < |nodes| ==> nodes[i].record == records[i])
      && (forall i, j :: 0 <= i < j < |nodes| ==> nodes[i] != nodes[j])
      && (forall i :: 0 <= i < |nodes| - 1 ==> nodes[i].next == nodes[i + 1])
      && (if nodes == [] then head == null && tail == null
          else head == nodes[0] && tail == nodes[|nodes| - 1] && tail.next == null)
    }

    constructor ()
      ensures Valid() && nodes == [] && records == []
    {
      head, tail, nodes, records := null, null, [], [];
    }

    method Append(c: Container)
      requires Valid() && c !in nodes
      modifies this, nodes`next, c`next
      ensures Valid() && nodes == old(nodes) + [c] && records == old(records) + [c.record]
    {
      c.next := null;
      nodes, records := nodes + [c], records + [c.record];
      if tail == null {
        head, tail := c, c;
        return;
      }
      tail.next := c;
      tail := c;
    }

    method Clear()
      modifies this
      ensures Valid() && nodes == [] && records == []
    {
      head, tail, nodes, records := null, null, [], [];
    }

    /** Change what a node holds. */
    method SetRecord(c: Container, r: Record, ghost i: nat)
      requires Valid() && i < |nodes| && nodes[i] == c
      modifies this`records, c`record
      ensures Valid() && c.record == r && records == old(records)[i := r]
    {
      c.record := r;
      records := records[i := r];
    }

    /** Walk to `c` with the node before it in hand. */
    method Locate(c: Container) returns (prev: Container?, cursor: Container?, ghost i: nat)
      requires Valid()
      ensures i <= |nodes| && c !in nodes[..i] && (i < |nodes| ==> nodes[i] == c)
      ensures cursor == if i < |nodes| then nodes[i] else null
      ensures prev == if i == 0 then null else nodes[i - 1]
    {
      prev, cursor, i := null, head, 0;
      while cursor != null && cursor != c
        invariant i <= |nodes| && c !in nodes[..i]
        invariant cursor == if i < |nodes| then nodes[i] else null
        invariant prev == if i == 0 then null else nodes[i - 1]
        decreases |nodes| - i
      {
        prev := cursor;
        cursor := cursor.next;
        i := i + 1;
      }
    }

    /** Take the located node out of the chain. */
    method Unlink(prev: Container?, cursor: Container, ghost i: nat)
      requires Valid() && i < |nodes| && cursor == nodes[i] && prev == if i == 0 then null else nodes[i - 1]
      modifies this, nodes`next
      ensures Valid() && nodes == RemoveAt(old(nodes), i) && records == RemoveAt(old(records), i)
    {
      ghost var was := nodes;
      assert i + 1 < |was| ==> cursor.next == was[i + 1];
      assert i + 1 == |was| ==> cursor.next == null && tail == cursor;
      if prev == null {
        head := cursor.next;
      } else {
        prev.next := cursor.next;
      }
      if tail == cursor {
        tail := prev;
      }
      cursor.next := null;
      nodes, records := RemoveAt(was, i), RemoveAt(records, i);
      assert forall k :: 0 <= k < |nodes| ==> nodes[k] == was[if k < i then k else k + 1];
      forall k | 0 <= k < |nodes| - 1 ensures nodes[k].next == nodes[k + 1] {
        assert nodes[k] == was[if k < i then k else k + 1];
        assert nodes[k + 1] == was[if k + 1 < i then k + 1 else k + 2];
      }
    }

    /** Unlink `c`, or do nothing if it is not on the list. */
    method Remove(c: Container)
      requires Valid()
      modifies this, nodes`next
      ensures Valid()
      ensures c !in old(nodes) ==> nodes == old(nodes) && records == old(records)
      ensures forall k :: 0 <= k < |old(nodes)| && old(nodes)[k] == c ==>
                nodes == RemoveAt(old(nodes), k) && records == RemoveAt(old(records), k)
    {
      var prev, cursor, i := Locate(c);
      if cursor == null {
        assert nodes[..|nodes|] == nodes;
        return;
      }
      assert forall k :: 0 <= k < |nodes| && nodes[k] == c ==> k == i;
      Unlink(prev, cursor, i);
    }

    /** The first node with that id, and where it stands. */
    method Find(id: string) returns (found: Container?, ghost i: nat)
      requires Valid()
      ensures i <= |nodes| && found == (if i < |nodes| then nodes[i] else null)
      ensures i < |nodes| ==> records[i].id == id
      ensures forall j :: 0 <= j < i ==> records[j].id != id
    {
      found, i := head, 0;
      while found != null
        invariant i <= |nodes| && found == if i < |nodes| then nodes[i] else null
        invariant forall j :: 0 <= j < i ==> records[j].id != id
        decreases |nodes| - i
      {
        if found.record.id == id {
          return;
        }
        found := found.next;
        i := i + 1;
      }
    }

    /** `container_create` with a save that fails: the list is exactly what it was. */
    method AppendThenWithdraw(c: Container)
      requires Valid() && c !in nodes
      modifies this, nodes`next, c`next
      ensures Valid() && nodes == old(nodes) && records == old(records)
    {
      Append(c);
      assert nodes[|nodes| - 1] == c;
      Remove(c);
      assert RemoveAt(old(nodes) + [c], |old(nodes)|) == old(nodes);
      assert RemoveAt(old(records) + [c.record], |old(records)|) == old(records);
    }

    /** `container_delete` with a save that fails: nothing is lost but the record is now the last. */
    method RemoveThenReappend(c: Container, ghost k: nat)
      requires Valid() && k < |nodes| && nodes[k] == c
      modifies this, nodes`next, c`next
      ensures Valid() && multiset(nodes) == multiset(old(nodes))
      ensures nodes == RemoveAt(old(nodes), k) + [c] && records == RemoveAt(old(records), k) + [c.record]
    {
      ghost var was := nodes;
      Remove(c);
      OnlyThere(was, k);
      Append(c);
      MovedToEnd(was, k);
    }
  }
}
