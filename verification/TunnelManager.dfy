/** The tunnel manager as the program keeps it: record objects behind a map, changed in place
    through the references it hands out.  Each handler is tied to its step of the state machine. */
module TunnelManager {
  import opened Bytes
  import opened Tunnel

  class P2PTunnel {
    const a: Key4
    const b: Key4
    var status: Status
    var retryTimes: nat
    ghost var admits: nat
    ghost var closes: nat
    ghost var handled: nat

    constructor (a: Key4, b: Key4, status: Status, ghost admits: nat)
      ensures View() == Record(a, b, status, 0, admits, 0, 0)
    {
      this.a, this.b, this.status, this.admits := a, b, status, admits;
      retryTimes, closes, handled := 0, 0, 0;
    }

    ghost function View(): Record reads this {
      Record(a, b, status, retryTimes, admits, closes, handled)
    }

    predicate Names(x: Key4, y: Key4) {
      (a == x && b == y) || (a == y && b == x)
    }

    predicate Touches(x: Key4) { a == x || b == x }

    /** A 32-bit atomic increment. */
    method AddRetryTimes()
      modifies this`retryTimes
      ensures retryTimes == (old(retryTimes) + 1) % WORD32
    {
      retryTimes := (retryTimes + 1) % WORD32;
    }

    method Fail()
      modifies this
      ensures View() == Close(old(View()))
    {
      status := Failed;
      AddRetryTimes();
      closes := closes + 1;
    }

    method Count()
      modifies this
      ensures View() == Handle(old(View()))
    {
      AddRetryTimes();
      handled := handled + 1;
    }
  }

  ghost function Records(t: map<Key8, P2PTunnel>): map<Key8, Record> reads t.Values {
    map k | k in t :: t[k].View()
  }

  lemma RecordsWithout(t: map<Key8, P2PTunnel>, r: map<Key8, P2PTunnel>, a: Key4)
    requires forall k :: k in r <==> k in t && !t[k].Touches(a)
    requires forall k :: k in r ==> r[k] == t[k]
    ensures Records(r) == Without(Records(t), a)
  {
  }

  class TunnelManager {
    var tunnels: map<Key8, P2PTunnel>
    var tasks: seq<(Key4, Key4)>

    constructor ()
      ensures Valid() && View() == Start && tunnels == map[]
    {
      tunnels, tasks := map[], [];
    }

    /** No record object is filed under two keys. */
    ghost predicate Distinct() reads this {
      forall x, y :: x in tunnels && y in tunnels && x != y ==> tunnels[x] != tunnels[y]
    }

    /** And the records are as every run of the state machine leaves them: each under its own
        pair's key, and not let through too often. */
    ghost predicate Valid() reads this, tunnels.Values {
      Distinct() && Inv(View())
    }

    ghost function View(): Manager reads this, tunnels.Values {
      Manager(Records(tunnels), tasks)
    }

    /** Finds the record that names both addresses, in either order, if there is one; there is
        never a second. */
    method Exist(a: Key4, b: Key4) returns (t: P2PTunnel?)
      requires Valid()
      ensures t != null <==> exists x :: x in tunnels && tunnels[x].Names(a, b)
      ensures forall x :: x in tunnels && tunnels[x].Names(a, b) ==> tunnels[x] == t
      ensures t != null ==> t.Names(a, b) && MakeKey(a, b) in tunnels && tunnels[MakeKey(a, b)] == t
      ensures t == null ==> MakeKey(a, b) !in tunnels
    {
      var k := MakeKey(a, b);
      forall x | x in tunnels ensures tunnels[x].Names(a, b) <==> x == k {
        assert View().tunnels[x] == tunnels[x].View();
        MakeKeyExact(tunnels[x].a, tunnels[x].b, a, b);
      }
      t := if k in tunnels then tunnels[k] else null;
    }

    method AddTunnel(a: Key4, b: Key4, status: Status, ghost admits: nat)
      requires Distinct()
      modifies this`tunnels
      ensures Distinct() && View() == Tunnel.AddTunnel(old(View()), a, b, status, admits)
    {
      var k := MakeKey(a, b);
      if k !in tunnels {
        var t := new P2PTunnel(a, b, status, admits);
        tunnels := tunnels[k := t];
      }
    }

    /** A failed record is let through again. */
    method ReadmitAt(k: Key8)
      requires Distinct() && k in tunnels
      modifies tunnels[k]
      ensures Distinct() && View() == old(View()).(tunnels := old(View()).tunnels[k := Readmit(old(View()).tunnels[k])])
    {
      var t := tunnels[k];
      t.status, t.admits := Init, t.admits + 1;
    }

    /** A dispatched task is counted on its record. */
    method CountAt(k: Key8)
      requires Distinct() && k in tunnels
      modifies tunnels[k]
      ensures Distinct() && View() == old(View()).(tunnels := old(View()).tunnels[k := Handle(old(View()).tunnels[k])])
    {
      tunnels[k].Count();
    }

    method Enqueue(src: Key4, dst: Key4)
      modifies this`tasks
      ensures View() == old(View()).(tasks := if |old(tasks)| < TASK_QUEUE then old(tasks) + [(src, dst)] else old(tasks))
    {
      if |tasks| < TASK_QUEUE { tasks := tasks + [(src, dst)]; }
    }

    method Dequeue() returns (task: (Key4, Key4))
      requires tasks != []
      modifies this`tasks
      ensures task == old(tasks)[0] && View() == old(View()).(tasks := old(tasks)[1..])
    {
      task := tasks[0];
      tasks := tasks[1..];
    }

    /** A close report fails the record and is counted on it. */
    method CloseAt(k: Key8)
      requires Distinct() && k in tunnels
      modifies tunnels[k]
      ensures Distinct() && View() == old(View()).(tunnels := old(View()).tunnels[k := Close(old(View()).tunnels[k])])
    {
      tunnels[k].Fail();
    }

    method ConnectAt(k: Key8)
      requires Distinct() && k in tunnels
      modifies tunnels[k]
      ensures Distinct() && View() == old(View()).(tunnels := old(View()).tunnels[k := old(View()).tunnels[k].(status := Connected)])
    {
      tunnels[k].status := Connected;
    }

    /** Decides on an attempt, and queues its task when there is room. */
    method IfEstablish(src: Key4, dst: Key4, srcNat: int, dstNat: int) returns (admitted: bool)
      requires Valid()
      modifies this, tunnels.Values
      ensures Valid()
      ensures admitted == Admits(old(View()), src, dst, srcNat, dstNat)
      ensures View() == Apply(old(View()), TryEstablish(src, dst, srcNat, dstNat))
    {
      InvStep(View(), TryEstablish(src, dst, srcNat, dstNat));
      if srcNat <= NAT_UNKNOWN || dstNat <= NAT_UNKNOWN { return false; }
      var t := Exist(src, dst);
      if t == null {
        AddTunnel(src, dst, Init, 1);
      } else if t.status == Failed && t.retryTimes < MAX_RETRY {
        ReadmitAt(MakeKey(src, dst));
      } else {
        return false;
      }
      Enqueue(src, dst);
      return true;
    }

    /** The dispatcher counts the attempt, on a new record when the old one is gone. */
    method DispatchTask()
      requires Valid()
      modifies this, tunnels.Values
      ensures Valid() && View() == Apply(old(View()), HandleTask)
    {
      InvStep(View(), HandleTask);
      if tasks == [] { return; }
      var t := Exist(tasks[0].0, tasks[0].1);
      var task := Dequeue();
      if t == null {
        AddTunnel(task.0, task.1, Init, 0);
      } else {
        CountAt(MakeKey(task.0, task.1));
      }
    }

    method HandleP2PEstablished(a: Key4, b: Key4)
      requires Valid()
      modifies this, tunnels.Values
      ensures Valid() && View() == Apply(old(View()), ReportEstablished(a, b))
    {
      InvStep(View(), ReportEstablished(a, b));
      var t := Exist(a, b);
      if t == null {
        AddTunnel(a, b, Connected, 0);
      } else if t.status == Init {
        ConnectAt(MakeKey(a, b));
      }
    }

    method HandleP2PClosed(a: Key4, b: Key4)
      requires Valid()
      modifies tunnels.Values
      ensures Valid() && View() == Apply(old(View()), ReportClosed(a, b))
    {
      InvStep(View(), ReportClosed(a, b));
      var t := Exist(a, b);
      if t != null { CloseAt(MakeKey(a, b)); }
    }

    method RemovePair(a: Key4, b: Key4)
      requires Valid()
      modifies this`tunnels
      ensures Valid() && View() == Apply(old(View()), RemoveTunnel(a, b))
    {
      InvStep(View(), RemoveTunnel(a, b));
      tunnels := tunnels - {MakeKey(a, b)};
      assert View() == Apply(old(View()), RemoveTunnel(a, b));
    }

    /** Deletes while iterating, in any order. */
    method DeleteTouching(a: Key4)
      modifies this`tunnels
      ensures forall k :: k in tunnels <==> k in old(tunnels) && !old(tunnels)[k].Touches(a)
      ensures forall k :: k in tunnels ==> tunnels[k] == old(tunnels)[k]
    {
      var todo := tunnels.Keys;
      while todo != {}
        invariant todo <= tunnels.Keys
        invariant tunnels == map k | k in old(tunnels) && (k in todo || !old(tunnels)[k].Touches(a)) :: old(tunnels)[k]
        decreases |todo|
      {
        var k :| k in todo;
        todo := todo - {k};
        if tunnels[k].Touches(a) { tunnels := tunnels - {k}; }
      }
    }

    method DropTouching(a: Key4)
      requires Distinct()
      modifies this`tunnels
      ensures Distinct() && View() == Apply(old(View()), RemoveAll(a))
    {
      DeleteTouching(a);
      RecordsWithout(old(tunnels), tunnels, a);
    }

    method RemoveA(a: Key4)
      requires Valid()
      modifies this`tunnels
      ensures Valid() && View() == Apply(old(View()), RemoveAll(a))
    {
      InvStep(View(), RemoveAll(a));
      DropTouching(a);
    }
  }
}
