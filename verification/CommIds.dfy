/** The Docker daemon's commVector: the communication identifiers that requests carried
    when they came in, kept per virtual machine until the response comes back. */
module CommIds {
  import opened Wrappers
  import opened Sequences

  datatype Entry = Entry(commId: int, msgId: int)

  datatype Vm = Vm(uid: int, pid: int, internals: seq<Entry>)

  /** insertCommId(): behind the entries of the same machine, or in a new record. */
  function Insert(t: seq<Vm>, uid: int, pid: int, entry: Entry): seq<Vm> {
    if t == [] then [Vm(uid, pid, [entry])]
    else if t[0].uid == uid && t[0].pid == pid then [t[0].(internals := t[0].internals + [entry])] + t[1..]
    else [t[0]] + Insert(t[1..], uid, pid, entry)
  }

  /** The first entry of a message, |entries| when there is none. */
  function Find(entries: seq<Entry>, msgId: int): (i: nat)
    ensures i <= |entries| && (i < |entries| ==> entries[i].msgId == msgId)
  {
    if entries == [] || entries[0].msgId == msgId then 0 else 1 + Find(entries[1..], msgId)
  }

  predicate Matches(vm: Vm, uid: int, pid: int, msgId: int) {
    vm.uid == uid && vm.pid == pid && Find(vm.internals, msgId) < |vm.internals|
  }

  datatype Taken = Taken(commId: Option<int>, table: seq<Vm>)

  /** updateCommId(): what the message gets back, and the table without that entry. */
  function Take(t: seq<Vm>, uid: int, pid: int, msgId: int): Taken {
    if t == [] then Taken(None, [])
    else if Matches(t[0], uid, pid, msgId) then
      var i := Find(t[0].internals, msgId);
      var rest := Without(t[0].internals, i);
      Taken(Some(t[0].internals[i].commId), (if rest == [] then [] else [t[0].(internals := rest)]) + t[1..])
    else
      var r := Take(t[1..], uid, pid, msgId);
      Taken(r.commId, [t[0]] + r.table)
  }

  // ------------------------------------------------- a queue per message

  /** The identifiers open for a message of a machine, oldest first. */
  function Open(t: seq<Vm>, uid: int, pid: int, msgId: int): seq<int> {
    if t == [] then []
    else Own(t[0], uid, pid, msgId) + Open(t[1..], uid, pid, msgId)
  }

  function Own(vm: Vm, uid: int, pid: int, msgId: int): seq<int> {
    if vm.uid == uid && vm.pid == pid then OpenIn(vm.internals, msgId) else []
  }

  function OpenIn(entries: seq<Entry>, msgId: int): seq<int> {
    if entries == [] then []
    else OpenOf(entries[0], msgId) + OpenIn(entries[1..], msgId)
  }

  /** One record per machine, none of them empty. */
  predicate Tidy(t: seq<Vm>) {
    && (forall i, j :: 0 <= i < j < |t| ==> t[i].uid != t[j].uid || t[i].pid != t[j].pid)
    && (forall i :: 0 <= i < |t| ==> t[i].internals != [])
  }

  function OpenOf(entry: Entry, msgId: int): seq<int> {
    if entry.msgId == msgId then [entry.commId] else []
  }

  lemma OpenInCons(entry: Entry, entries: seq<Entry>, msgId: int)
    ensures OpenIn([entry] + entries, msgId) == OpenOf(entry, msgId) + OpenIn(entries, msgId)
  {
    assert ([entry] + entries)[1..] == entries;
  }

  lemma {:induction false} OpenInAppend(entries: seq<Entry>, entry: Entry, msgId: int)
    ensures OpenIn(entries + [entry], msgId) == OpenIn(entries, msgId) + OpenOf(entry, msgId)
  {
    if entries == [] {
      OpenInCons(entry, [], msgId);
      assert [entry] + [] == entries + [entry];
    } else {
      var first, rest := entries[0], entries[1..];
      assert [first] + rest == entries;
      Associate([first], rest, [entry]);
      OpenInCons(first, rest + [entry], msgId);
      OpenInAppend(rest, entry, msgId);
      Associate(OpenOf(first, msgId), OpenIn(rest, msgId), OpenOf(entry, msgId));
    }
  }

  lemma WithoutFront(entries: seq<Entry>, i: nat)
    requires i + 1 < |entries|
    ensures Without(entries, i + 1) != [] && Without(entries, i + 1)[0] == entries[0]
    ensures Without(entries, i + 1)[1..] == Without(entries[1..], i)
  {
  }

  lemma {:induction false} OpenInWithout(entries: seq<Entry>, msgId: int, other: int)
    ensures Find(entries, msgId) == |entries| <==> OpenIn(entries, msgId) == []
    ensures Find(entries, msgId) < |entries| ==>
      var i := Find(entries, msgId);
      OpenIn(entries, msgId)[0] == entries[i].commId
      && OpenIn(Without(entries, i), other)
         == if other == msgId then OpenIn(entries, other)[1..] else OpenIn(entries, other)
  {
    if entries != [] {
      if entries[0].msgId == msgId {
        assert Without(entries, 0) == entries[1..];
      } else {
        OpenInWithout(entries[1..], msgId, other);
        var i := Find(entries[1..], msgId);
        if i < |entries| - 1 { WithoutFront(entries, i); }
      }
    }
  }

  lemma {:induction false} NothingElsewhere(t: seq<Vm>, uid: int, pid: int, msgId: int)
    requires forall i :: 0 <= i < |t| ==> t[i].uid != uid || t[i].pid != pid
    ensures Open(t, uid, pid, msgId) == [] && Take(t, uid, pid, msgId) == Taken(None, t)
  {
    if t != [] {
      NothingElsewhere(t[1..], uid, pid, msgId);
      assert [t[0]] + t[1..] == t;
    }
  }

  lemma OpenCons(vm: Vm, t: seq<Vm>, uid: int, pid: int, msgId: int)
    ensures Open([vm] + t, uid, pid, msgId)
         == Own(vm, uid, pid, msgId) + Open(t, uid, pid, msgId)
  {
    assert ([vm] + t)[1..] == t;
  }

  lemma TidyTail(t: seq<Vm>)
    requires Tidy(t) && t != []
    ensures Tidy(t[1..]) && forall i :: 0 <= i < |t| - 1 ==> t[1..][i].uid != t[0].uid || t[1..][i].pid != t[0].pid
  {
    forall i | 0 <= i < |t| - 1 ensures t[1..][i].uid != t[0].uid || t[1..][i].pid != t[0].pid {
      assert t[1..][i] == t[i + 1];
    }
  }

  /** The machines a table has records for. */
  predicate Knows(t: seq<Vm>, uid: int, pid: int) {
    exists i :: 0 <= i < |t| && t[i].uid == uid && t[i].pid == pid
  }

  lemma TidyCons(vm: Vm, t: seq<Vm>)
    requires Tidy(t) && vm.internals != [] && !Knows(t, vm.uid, vm.pid)
    ensures Tidy([vm] + t)
  {
  }

  lemma {:induction false} InsertTidies(t: seq<Vm>, uid: int, pid: int, entry: Entry, u: int, p: int)
    requires Tidy(t)
    ensures Tidy(Insert(t, uid, pid, entry))
    ensures Knows(Insert(t, uid, pid, entry), u, p) <==> Knows(t, u, p) || (u == uid && p == pid)
  {
    if t == [] {
      KnowsCons(Vm(uid, pid, [entry]), [], u, p);
      assert [Vm(uid, pid, [entry])] + [] == [Vm(uid, pid, [entry])];
    } else {
      TidyTail(t);
      assert !Knows(t[1..], t[0].uid, t[0].pid);
      assert [t[0]] + t[1..] == t;
      KnowsCons(t[0], t[1..], u, p);
      if t[0].uid == uid && t[0].pid == pid {
        var vm := t[0].(internals := t[0].internals + [entry]);
        TidyCons(vm, t[1..]);
        KnowsCons(vm, t[1..], u, p);
      } else {
        InsertTidies(t[1..], uid, pid, entry, u, p);
        InsertTidies(t[1..], uid, pid, entry, t[0].uid, t[0].pid);
        TidyCons(t[0], Insert(t[1..], uid, pid, entry));
        KnowsCons(t[0], Insert(t[1..], uid, pid, entry), u, p);
      }
    }
  }

  function Added(uid: int, pid: int, entry: Entry, u: int, p: int, m: int): seq<int> {
    if u == uid && p == pid && m == entry.msgId then [entry.commId] else []
  }

  lemma OwnGrows(t: seq<Vm>, entry: Entry, u: int, p: int, m: int)
    requires Tidy(t) && t != []
    ensures var vm := t[0].(internals := t[0].internals + [entry]);
            Own(vm, u, p, m) + Open(t[1..], u, p, m) == Open(t, u, p, m) + Added(t[0].uid, t[0].pid, entry, u, p, m)
  {
    if u == t[0].uid && p == t[0].pid {
      TidyTail(t);
      OpenInAppend(t[0].internals, entry, m);
      NothingElsewhere(t[1..], u, p, m);
    }
  }

  /** insertCommId() appends to the queue of its message and to no other. */
  lemma {:induction false} InsertAppends(t: seq<Vm>, uid: int, pid: int, entry: Entry, u: int, p: int, m: int)
    requires Tidy(t)
    ensures Open(Insert(t, uid, pid, entry), u, p, m) == Open(t, u, p, m) + Added(uid, pid, entry, u, p, m)
  {
    if t == [] {
      OpenCons(Vm(uid, pid, [entry]), [], u, p, m);
      assert [Vm(uid, pid, [entry])] + [] == [Vm(uid, pid, [entry])];
      OpenInCons(entry, [], m);
      assert [entry] + [] == [entry];
    } else if t[0].uid == uid && t[0].pid == pid {
      OpenCons(t[0].(internals := t[0].internals + [entry]), t[1..], u, p, m);
      OwnGrows(t, entry, u, p, m);
    } else {
      TidyTail(t);
      InsertAppends(t[1..], uid, pid, entry, u, p, m);
      OpenCons(t[0], Insert(t[1..], uid, pid, entry), u, p, m);
      Associate(Own(t[0], u, p, m), Open(t[1..], u, p, m), Added(uid, pid, entry, u, p, m));
    }
  }

  lemma KnowsCons(vm: Vm, t: seq<Vm>, u: int, p: int)
    ensures Knows([vm] + t, u, p) <==> (vm.uid == u && vm.pid == p) || Knows(t, u, p)
  {
    if vm.uid == u && vm.pid == p { assert ([vm] + t)[0] == vm; }
    if Knows(t, u, p) {
      var i :| 0 <= i < |t| && t[i].uid == u && t[i].pid == p;
      assert ([vm] + t)[i + 1] == t[i];
    }
  }

  lemma {:induction false} TakeTidies(t: seq<Vm>, uid: int, pid: int, msgId: int, u: int, p: int)
    requires Tidy(t)
    ensures Tidy(Take(t, uid, pid, msgId).table)
    ensures Knows(Take(t, uid, pid, msgId).table, u, p) ==> Knows(t, u, p)
  {
    if t != [] {
      if Matches(t[0], uid, pid, msgId) {
        TakeHereTidies(t, uid, pid, msgId, u, p);
      } else {
        TidyTail(t);
        assert !Knows(t[1..], t[0].uid, t[0].pid);
        assert [t[0]] + t[1..] == t;
        KnowsCons(t[0], t[1..], u, p);
        TakeTidies(t[1..], uid, pid, msgId, u, p);
        TakeTidies(t[1..], uid, pid, msgId, t[0].uid, t[0].pid);
        TidyCons(t[0], Take(t[1..], uid, pid, msgId).table);
        KnowsCons(t[0], Take(t[1..], uid, pid, msgId).table, u, p);
      }
    }
  }

  /** updateCommId() gives the oldest open identifier of its message and removes that one;
      without any, it changes nothing. */
  lemma {:induction false} TakePops(t: seq<Vm>, uid: int, pid: int, msgId: int, u: int, p: int, m: int)
    requires Tidy(t)
    ensures var open := Open(t, uid, pid, msgId);
            && Take(t, uid, pid, msgId).commId == (if open == [] then None else Some(open[0]))
            && (open == [] ==> Take(t, uid, pid, msgId).table == t)
            && Open(Take(t, uid, pid, msgId).table, u, p, m)
               == if u == uid && p == pid && m == msgId && open != [] then open[1..] else Open(t, u, p, m)
  {
    if t != [] {
      if Matches(t[0], uid, pid, msgId) {
        TakeHere(t, uid, pid, msgId, u, p, m);
      } else {
        TidyTail(t);
        TakePops(t[1..], uid, pid, msgId, u, p, m);
        TakeBehindFirst(t, uid, pid, msgId, u, p, m);
      }
    }
  }

  /** The first record has nothing for the message. */
  lemma TakeBehindFirst(t: seq<Vm>, uid: int, pid: int, msgId: int, u: int, p: int, m: int)
    requires Tidy(t) && t != [] && !Matches(t[0], uid, pid, msgId)
    ensures Open(t, uid, pid, msgId) == Open(t[1..], uid, pid, msgId)
    ensures Take(t, uid, pid, msgId).table == t <==> Take(t[1..], uid, pid, msgId).table == t[1..]
    ensures var rest := Take(t[1..], uid, pid, msgId).table;
            Open(Take(t, uid, pid, msgId).table, u, p, m)
            == Own(t[0], u, p, m) + Open(rest, u, p, m)
    ensures u == uid && p == pid && m == msgId ==>
              Open(Take(t, uid, pid, msgId).table, u, p, m) == Open(Take(t[1..], uid, pid, msgId).table, u, p, m)
  {
    OpenInWithout(t[0].internals, msgId, msgId);
    OpenCons(t[0], Take(t[1..], uid, pid, msgId).table, u, p, m);
    assert [t[0]] + t[1..] == t;
    assert ([t[0]] + Take(t[1..], uid, pid, msgId).table)[1..] == Take(t[1..], uid, pid, msgId).table;
  }

  /** The records with an empty one dropped. */
  function Kept(vm: Vm, t: seq<Vm>): seq<Vm> {
    (if vm.internals == [] then [] else [vm]) + t
  }

  lemma OpenKept(vm: Vm, t: seq<Vm>, u: int, p: int, m: int)
    ensures Open(Kept(vm, t), u, p, m) == Own(vm, u, p, m) + Open(t, u, p, m)
  {
    if vm.internals == [] {
      assert [] + t == t;
    } else {
      OpenCons(vm, t, u, p, m);
    }
  }

  lemma TakeHere(t: seq<Vm>, uid: int, pid: int, msgId: int, u: int, p: int, m: int)
    requires Tidy(t) && t != [] && Matches(t[0], uid, pid, msgId)
    ensures var open := Open(t, uid, pid, msgId);
            && open != [] && Take(t, uid, pid, msgId).commId == Some(open[0])
            && Open(Take(t, uid, pid, msgId).table, u, p, m)
               == if u == uid && p == pid && m == msgId then open[1..] else Open(t, u, p, m)
  {
    TidyTail(t);
    var rest := Without(t[0].internals, Find(t[0].internals, msgId));
    assert Take(t, uid, pid, msgId).table == Kept(t[0].(internals := rest), t[1..]);
    OpenKept(t[0].(internals := rest), t[1..], u, p, m);
    OpenInWithout(t[0].internals, msgId, m);
    NothingElsewhere(t[1..], uid, pid, msgId);
    if u == uid && p == pid {
      NothingElsewhere(t[1..], uid, pid, m);
    }
  }

  lemma TakeHereTidies(t: seq<Vm>, uid: int, pid: int, msgId: int, u: int, p: int)
    requires Tidy(t) && t != [] && Matches(t[0], uid, pid, msgId)
    ensures Tidy(Take(t, uid, pid, msgId).table)
    ensures Knows(Take(t, uid, pid, msgId).table, u, p) ==> Knows(t, u, p)
  {
    TidyTail(t);
    assert !Knows(t[1..], t[0].uid, t[0].pid);
    assert [t[0]] + t[1..] == t;
    KnowsCons(t[0], t[1..], u, p);
    var rest := Without(t[0].internals, Find(t[0].internals, msgId));
    if rest == [] {
      assert [] + t[1..] == t[1..];
    } else {
      TidyCons(t[0].(internals := rest), t[1..]);
      KnowsCons(t[0].(internals := rest), t[1..], u, p);
    }
  }
}
