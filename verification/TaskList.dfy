/** The scheduler's linked list, and its selection loop over the nodes. */
module TaskLists {
  import opened Wrappers
  import opened Tasking

  class ListNode {
    var prev: ListNode?
    var next: ListNode?
    var data: Task

    constructor (data: Task)
      ensures this.data == data && next == null && prev == null
    {
      this.data, prev, next := data, null, null;
    }
  }

  class TaskList {
    var head: ListNode?
    ghost var nodes: seq<ListNode>

    ghost predicate LinkedAt(i: nat)
      requires i < |nodes|
      reads this, nodes
    {
      && nodes[i].next == (if i + 1 < |nodes| then nodes[i + 1] else null)
      && nodes[i].prev == (if i > 0 then nodes[i - 1] else null)
    }

    ghost predicate Valid()
      reads this, nodes
    {
      && head == (if nodes == [] then null else nodes[0])
      && (forall i, j | 0 <= i < j < |nodes| :: nodes[i] != nodes[j])
      && forall i | 0 <= i < |nodes| :: LinkedAt(i)
    }

    ghost function Tasks(): (tasks: seq<Task>)
      reads this, nodes
      ensures |tasks| == |nodes|
    {
      seq(|nodes|, i requires 0 <= i < |nodes| reads this, nodes => nodes[i].data)
    }

    constructor ()
      ensures Valid() && nodes == []
    {
      head, nodes := null, [];
    }

    /** list_add_node: walks to the end and appends. */
    method Add(data: Task) returns (temp: ListNode)
      requires Valid()
      modifies this, nodes
      ensures Valid() && fresh(temp) && nodes == old(nodes) + [temp]
      ensures Tasks() == old(Tasks()) + [data]
    {
      temp := new ListNode(data);
      if head != null {
        var move: ListNode := head;
        ghost var i := 0;
        assert LinkedAt(0);
        while move.next != null
          invariant i < |nodes| && move == nodes[i] && Valid() && LinkedAt(i)
          invariant unchanged(this) && forall j | 0 <= j < |nodes| :: unchanged(nodes[j])
          decreases |nodes| - i
        {
          assert LinkedAt(i) && LinkedAt(i + 1);
          move, i := move.next, i + 1;
        }
        assert i == |nodes| - 1;
        move.next := temp;
        temp.prev := move;
        temp.next := null;
      } else {
        head := temp;
      }
      nodes := nodes + [temp];
      forall j | 0 <= j < |nodes|
        ensures LinkedAt(j)
      {
        assert j < |old(nodes)| ==> old(LinkedAt(j));
      }
    }

    /** list_remove_node, for any node but the head, which the list keeps by another pointer. */
    method Remove(node: ListNode, ghost i: nat)
      requires Valid() && 0 < i < |nodes| && node == nodes[i]
      modifies this, nodes
      ensures Valid() && nodes == old(nodes)[..i] + old(nodes)[i + 1..]
      ensures Tasks() == Tasking.Without(old(Tasks()), i)
      ensures node.next == if i < |nodes| then nodes[i] else null
    {
      assert LinkedAt(i) && LinkedAt(i - 1);
      assert i + 1 < |nodes| ==> LinkedAt(i + 1);
      if node.prev != null {
        node.prev.next := node.next;
      }
      if node.next != null {
        node.next.prev := node.prev;
      }
      nodes := nodes[..i] + nodes[i + 1..];
      forall j | 0 <= j < |nodes|
        ensures LinkedAt(j)
      {
        assert old(LinkedAt(if j < i then j else j + 1));
      }
    }

    /** get_task_node_by_pid */
    method FindByPid(pid: nat) returns (ret: ListNode?)
      requires Valid()
      ensures Find(Tasks(), pid).None? ==> ret == null
      ensures Find(Tasks(), pid).Some? ==> ret == nodes[Find(Tasks(), pid).value]
    {
      var temp := head;
      ret := null;
      ghost var i := 0;
      assert nodes != [] ==> LinkedAt(0);
      while temp != null
        invariant i <= |nodes| && temp == (if i < |nodes| then nodes[i] else null)
        invariant forall j | 0 <= j < i :: nodes[j].data.pid != pid
        decreases |nodes| - i
      {
        assert LinkedAt(i);
        if temp.data.pid == pid {
          ret := temp;
          FindLeast(Tasks(), pid, i);
          return;
        }
        temp, i := temp.next, i + 1;
      }
    }

    /** The do-while loop of rrschedule_call. current is the node at position cur, or one just removed from behind it. */
    method Seek(current: ListNode, tick: nat, sems: map<nat, int>, ghost cur: nat, ghost good: nat)
        returns (next: ListNode, ghost picked: nat)
      requires Valid() && cur < |nodes| && good < |nodes| && Runnable(nodes[good].data, tick, sems)
      requires current.next == if cur + 1 < |nodes| then nodes[cur + 1] else null
      ensures picked < |nodes| && next == nodes[picked] && Picks(Tasks(), cur, tick, sems, picked)
    {
      assert LinkedAt(0);
      next := if current.next != null then current.next else head;
      picked := Succ(|nodes|, cur);
      while !Runnable(next.data, tick, sems)
        invariant picked < |nodes| && next == nodes[picked]
        invariant Distance(|nodes|, cur, picked) <= Distance(|nodes|, cur, good)
        invariant forall j | 0 <= j < |nodes| && Distance(|nodes|, cur, j) < Distance(|nodes|, cur, picked) ::
          !Runnable(nodes[j].data, tick, sems)
        decreases |nodes| - Distance(|nodes|, cur, picked)
      {
        assert LinkedAt(picked);
        next := if next.next != null then next.next else head;
        picked := Succ(|nodes|, picked);
      }
    }

    /** The selection of rrschedule_call, with the write that follows the loop. */
    method RrSelect(current: ListNode, tick: nat, sems: map<nat, int>, ghost cur: nat, ghost good: nat)
        returns (next: ListNode, ghost picked: nat)
      requires Valid() && cur < |nodes| && good < |nodes| && Runnable(nodes[good].data, tick, sems)
      requires current.next == if cur + 1 < |nodes| then nodes[cur + 1] else null
      modifies nodes
      ensures Valid() && picked < |nodes| && next == nodes[picked]
      ensures Picks(old(Tasks()), cur, tick, sems, picked)
      ensures Tasks() == old(Tasks())[picked := old(Tasks())[picked].(state := RUNNING)]
    {
      hide Picks, Runnable;
      next, picked := Seek(current, tick, sems, cur, good);
      next.data := next.data.(state := RUNNING);
      forall i | 0 <= i < |nodes|
        ensures LinkedAt(i)
      {
        assert old(LinkedAt(i));
      }
    }
  }

  lemma {:induction false} FindLeast(tasks: seq<Task>, pid: nat, i: nat)
    requires i < |tasks| && tasks[i].pid == pid && forall j | 0 <= j < i :: tasks[j].pid != pid
    ensures Find(tasks, pid) == Some(i)
  {
    if i > 0 {
      FindLeast(tasks[1..], pid, i - 1);
    }
  }
}
