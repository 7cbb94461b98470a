/**
 * The socket.io relay of `project_chat_nodejs/server.js`: a registry that
 * maps each online username to the connection it registered from, a
 * broadcast of the whole registry to every open connection whenever it
 * changes, and private messages routed by connection identifier.
 *
 * The registry is a JavaScript object whose keys keep their insertion order;
 * the model keeps that order in `names` beside the map `reg`.
 */
module ChatServer {
  import opened Wrappers
  import opened Lists

  /** A socket.io connection identifier (`socket.id`). */
  type ConnId = string

  /** One row of the `online_users` payload. */
  datatype Entry = Entry(socketId: ConnId, username: string)

  /** What the server emits to a connection. */
  datatype Event =
    | OnlineUsers(users: seq<Entry>)
    | ReceiveMessage(senderId: ConnId, message: string)

  /** One emitted event and the connection it is delivered to. */
  type Delivery = (ConnId, Event)

  /**
   * The registry's shape: `names` lists every key of `reg` exactly once, in
   * the order the keys were first inserted.
   */
  ghost predicate Directory(names: seq<string>, reg: map<string, ConnId>) {
    Distinct(names) && forall n :: n in names <==> n in reg
  }

  /** `name` is currently registered to connection `s`. */
  predicate BoundTo(reg: map<string, ConnId>, name: string, s: ConnId) {
    name in reg && reg[name] == s
  }

  /** The usernames of a payload, in payload order. */
  function Usernames(users: seq<Entry>): (names: seq<string>)
    ensures |names| == |users|
    ensures forall i :: 0 <= i < |users| ==> names[i] == users[i].username
  {
    seq(|users|, i requires 0 <= i < |users| => users[i].username)
  }

  /** `Object.entries(onlineUsers).map(([name, id]) => ({socketId: id, username: name}))`. */
  function Snapshot(names: seq<string>, reg: map<string, ConnId>): (users: seq<Entry>)
    requires forall n :: n in names ==> n in reg
    ensures |users| == |names|
    ensures forall i :: 0 <= i < |users| ==> BoundTo(reg, users[i].username, users[i].socketId)
  {
    seq(|names|, i requires 0 <= i < |names| => Entry(reg[names[i]], names[i]))
  }

  /**
   * The broadcast payload lists every online user exactly once, in
   * registration order, each with the connection it is registered to, and
   * has as many rows as the registry has keys.
   */
  lemma SnapshotListsRegistry(names: seq<string>, reg: map<string, ConnId>)
    requires Directory(names, reg)
    ensures Usernames(Snapshot(names, reg)) == names
    ensures Distinct(Usernames(Snapshot(names, reg)))
    ensures forall u :: u in Usernames(Snapshot(names, reg)) <==> u in reg
    ensures |Snapshot(names, reg)| == |reg|
  {
    DistinctSize(names);
    assert reg.Keys == set x | x in names;
  }

  /** `onlineUsers[username] = socket.id`, with the key order of a JavaScript object. */
  function Upsert(names: seq<string>, reg: map<string, ConnId>, name: string, s: ConnId): (r: (seq<string>, map<string, ConnId>))
    ensures BoundTo(r.1, name, s)
    ensures forall n :: n != name ==> (n in r.1 <==> n in reg) && (n in reg ==> r.1[n] == reg[n])
    ensures name in reg ==> r.0 == names
    ensures name !in reg ==> r.0 == names + [name]
  {
    (if name in reg then names else names + [name], reg[name := s])
  }

  /**
   * Registering binds the name to the connection and leaves every other
   * binding alone; a name seen before keeps its place and adds no row, a new
   * name is added last.
   */
  lemma UpsertSpec(names: seq<string>, reg: map<string, ConnId>, name: string, s: ConnId)
    requires Directory(names, reg)
    ensures var (names', reg') := Upsert(names, reg, name, s);
      && Directory(names', reg')
      && BoundTo(reg', name, s)
      && (forall n :: n != name ==> (n in reg' <==> n in reg) && (n in reg ==> reg'[n] == reg[n]))
      && |names'| == |names| + (if name in reg then 0 else 1)
      && names'[..|names|] == names
  {
    var (names', reg') := Upsert(names, reg, name, s);
    if name !in reg {
      assert name !in names;
      forall i, j | 0 <= i < j < |names'| ensures names'[i] != names'[j] {
        if j == |names| { assert names'[i] in names; }
      }
    }
  }

  /**
   * `Object.keys(onlineUsers).find(key => onlineUsers[key] === socket.id)`:
   * the position of the first name, in key order, bound to `s`; `|names|`
   * when there is none.
   */
  function FirstBoundTo(names: seq<string>, reg: map<string, ConnId>, s: ConnId): (k: nat)
    ensures k <= |names|
    ensures k < |names| ==> BoundTo(reg, names[k], s)
    ensures forall j :: 0 <= j < k ==> !BoundTo(reg, names[j], s)
    decreases |names|
  {
    if names == [] then 0
    else if BoundTo(reg, names[0], s) then 0
    else
      var k := FirstBoundTo(names[1..], reg, s);
      assert forall j :: 1 <= j < k + 1 ==> names[j] == names[1..][j - 1];
      k + 1
  }

  /** Deleting the name found for a closing connection (the intended `if (username !== undefined)`). */
  function Unbind(names: seq<string>, reg: map<string, ConnId>, s: ConnId): (r: (seq<string>, map<string, ConnId>))
    ensures forall n :: n in r.1 <==> n in reg && n !in Gone(names, reg, s)
    ensures forall n :: n in r.1 ==> r.1[n] == reg[n]
    ensures Gone(names, reg, s) == [] ==> r == (names, reg)
  {
    var k := FirstBoundTo(names, reg, s);
    if k == |names| then (names, reg)
    else (names[..k] + names[k + 1..], reg - {names[k]})
  }

  /**
   * The deletion as written: `if (username) delete onlineUsers[username]`
   * also skips the deletion when the found name is the empty string, which
   * JavaScript treats as false.
   */
  function UnbindAsWritten(names: seq<string>, reg: map<string, ConnId>, s: ConnId): (r: (seq<string>, map<string, ConnId>))
    ensures forall n :: n in r.1 <==> n in reg && (n == "" || n !in Gone(names, reg, s))
    ensures forall n :: n in r.1 ==> r.1[n] == reg[n]
    ensures Gone(names, reg, s) == [] || Gone(names, reg, s) == [""] ==> r == (names, reg)
  {
    var k := FirstBoundTo(names, reg, s);
    if k < |names| && names[k] != "" then (names[..k] + names[k + 1..], reg - {names[k]})
    else (names, reg)
  }

  /** The names a disconnect of `s` deletes: the first one bound to `s`, if there is one. */
  function Gone(names: seq<string>, reg: map<string, ConnId>, s: ConnId): (gone: seq<string>)
    ensures |gone| <= 1
    ensures forall g :: g in gone ==> g in names && BoundTo(reg, g, s)
    ensures gone == [] <==> forall i :: 0 <= i < |names| ==> !BoundTo(reg, names[i], s)
  {
    var k := FirstBoundTo(names, reg, s);
    if k < |names| then [names[k]] else []
  }

  /** On a registry every name bound to `s` is one of `names`. */
  lemma BoundIsListed(names: seq<string>, reg: map<string, ConnId>, s: ConnId)
    requires Directory(names, reg)
    ensures Gone(names, reg, s) == [] <==> forall n :: !BoundTo(reg, n, s)
  {
    if Gone(names, reg, s) == [] {
      forall n ensures !BoundTo(reg, n, s) {
        if n in names {
          var i :| 0 <= i < |names| && names[i] == n;
        }
      }
    }
  }

  /** The remaining names keep their order and still list exactly the keys of the registry. */
  lemma UnbindKeepsDirectory(names: seq<string>, reg: map<string, ConnId>, s: ConnId)
    requires Directory(names, reg)
    ensures Directory(Unbind(names, reg, s).0, Unbind(names, reg, s).1)
    ensures Unbind(names, reg, s).0 == Without(names, Gone(names, reg, s))
  {
    var k := FirstBoundTo(names, reg, s);
    if k == |names| {
      WithoutNothing(names);
    } else {
      var g := names[k];
      var names', reg' := names[..k] + names[k + 1..], reg - {g};
      assert Gone(names, reg, s) == [g];
      assert Unbind(names, reg, s) == (names', reg');
      CutIsWithout(names, k);
      WithoutDistinct(names, [g]);
      forall n ensures n in names' <==> n in reg' {
        assert n in names' <==> n in names && n != g;
      }
    }
  }

  /** The registry is exactly one row shorter when some name was bound to `s`, unchanged otherwise. */
  lemma UnbindShrinks(names: seq<string>, reg: map<string, ConnId>, s: ConnId)
    requires Directory(names, reg)
    ensures |Unbind(names, reg, s).1| == |reg| - |Gone(names, reg, s)|
  {
    var k := FirstBoundTo(names, reg, s);
    if k < |names| {
      assert names[k] in reg.Keys;
      assert (reg - {names[k]}).Keys == reg.Keys - {names[k]};
    }
  }

  /**
   * A disconnect is idempotent when at most one name is bound to the
   * connection: a second disconnect of the same socket changes nothing.
   */
  lemma UnbindTwice(names: seq<string>, reg: map<string, ConnId>, s: ConnId)
    requires Directory(names, reg)
    requires forall m, n :: BoundTo(reg, m, s) && BoundTo(reg, n, s) ==> m == n
    ensures var (names', reg') := Unbind(names, reg, s);
      Unbind(names', reg', s) == (names', reg')
  {
    UnbindKeepsDirectory(names, reg, s);
    BoundIsListed(names, reg, s);
    var (names', reg') := Unbind(names, reg, s);
    forall n ensures !BoundTo(reg', n, s) {
      if n in reg' && Gone(names, reg, s) != [] {
        var g := Gone(names, reg, s)[0];
        assert g in Gone(names, reg, s) && n != g;
      }
    }
    BoundIsListed(names', reg', s);
  }

  /**
   * When one connection registered two names, its disconnect removes only
   * the first; the second stays listed with a connection that is gone.
   */
  lemma SecondNameOutlivesDisconnect(s: ConnId)
    ensures Unbind(["alice", "bob"], map["alice" := s, "bob" := s], s) == (["bob"], map["bob" := s])
    ensures UnbindAsWritten(["alice", "bob"], map["alice" := s, "bob" := s], s) == (["bob"], map["bob" := s])
  {
    assert FirstBoundTo(["alice", "bob"], map["alice" := s, "bob" := s], s) == 0;
    assert ["alice", "bob"][..0] + ["alice", "bob"][1..] == ["bob"];
    assert map["alice" := s, "bob" := s] - {"alice"} == map["bob" := s];
  }

  /**
   * The deletion as written is idempotent under the same condition: a
   * second disconnect of the same socket changes nothing, whether the first
   * one deleted a name or kept a found `""`.
   */
  lemma UnbindAsWrittenTwice(names: seq<string>, reg: map<string, ConnId>, s: ConnId)
    requires Directory(names, reg)
    requires forall m, n :: BoundTo(reg, m, s) && BoundTo(reg, n, s) ==> m == n
    ensures var (names', reg') := UnbindAsWritten(names, reg, s);
      UnbindAsWritten(names', reg', s) == (names', reg')
  {
    var k := FirstBoundTo(names, reg, s);
    if k == |names| || names[k] != "" {
      UnbindAsWrittenAgrees(names, reg, s);
      UnbindTwice(names, reg, s);
      var (names', reg') := Unbind(names, reg, s);
      UnbindAsWrittenAgrees(names', reg', s);
    }
  }

  /** The written and the intended deletion agree except when the name found is the empty string. */
  lemma UnbindAsWrittenAgrees(names: seq<string>, reg: map<string, ConnId>, s: ConnId)
    requires FirstBoundTo(names, reg, s) == |names| || names[FirstBoundTo(names, reg, s)] != ""
    ensures UnbindAsWritten(names, reg, s) == Unbind(names, reg, s)
  {
  }

  /**
   * The discrepancy at server.js line 45: a user registered under the empty
   * name stays in the registry after its connection closes, whereas the
   * intended deletion removes it.
   */
  lemma EmptyNameOutlivesDisconnect(s: ConnId)
    ensures UnbindAsWritten([""], map["" := s], s) == ([""], map["" := s])
    ensures Unbind([""], map["" := s], s) == ([], map[])
  {
    assert FirstBoundTo([""], map["" := s], s) == 0;
    assert [""][..0] + [""][1..] == [];
    assert map["" := s] - {""} == map[];
  }

  /** `io.emit(event, payload)`: one delivery to each open connection, in connection order. */
  function Fanout(targets: seq<ConnId>, ev: Event): (batch: seq<Delivery>)
    ensures |batch| == |targets|
    ensures forall i :: 0 <= i < |batch| ==> batch[i] == (targets[i], ev)
    decreases |targets|
  {
    if targets == [] then [] else [(targets[0], ev)] + Fanout(targets[1..], ev)
  }

  /** A broadcast reaches every open connection exactly once and nobody else. */
  lemma {:induction false} FanoutExactlyOnce(targets: seq<ConnId>, ev: Event, c: ConnId)
    requires Distinct(targets)
    ensures multiset(Fanout(targets, ev))[(c, ev)] == if c in targets then 1 else 0
    ensures forall d :: d in Fanout(targets, ev) ==> d.0 in targets && d.1 == ev
    decreases |targets|
  {
    if targets != [] {
      var rest := targets[1..];
      DistinctTail(targets);
      FanoutExactlyOnce(rest, ev, c);
      assert Fanout(targets, ev) == [(targets[0], ev)] + Fanout(rest, ev);
      assert multiset(Fanout(targets, ev)) == multiset{(targets[0], ev)} + multiset(Fanout(rest, ev));
      assert c in targets <==> c == targets[0] || c in rest;
    }
  }

  /**
   * `io.to(receiver).emit("receive_message", {senderId, message})`: delivered
   * once to the receiver when it is an open connection, dropped otherwise.
   */
  function Route(open: seq<ConnId>, sender: ConnId, message: string, receiver: ConnId): (batch: seq<Delivery>)
    ensures |batch| <= 1
    ensures batch != [] <==> receiver in open
    ensures forall d :: d in batch ==> d == (receiver, ReceiveMessage(sender, message))
  {
    if receiver in open then [(receiver, ReceiveMessage(sender, message))] else []
  }

  /** The relay process: its open connections, the registry and everything it has emitted. */
  class Server {
    /** Open connections, in the order they connected. */
    var open: seq<ConnId>
    /** The keys of `onlineUsers`, in insertion order. */
    var names: seq<string>
    /** `onlineUsers`: username to connection identifier. */
    var reg: map<string, ConnId>
    /** Every delivery made so far, oldest first. */
    var outbox: seq<Delivery>

    ghost predicate Valid()
      reads this
    {
      Distinct(open) && Directory(names, reg)
    }

    /** The process starts with no connection and `onlineUsers = {}`. */
    constructor ()
      ensures Valid()
      ensures open == [] && names == [] && reg == map[] && outbox == []
    {
      open, names, reg, outbox := [], [], map[], [];
    }

    /** A client opens a new connection. */
    method Connect(c: ConnId)
      requires Valid() && c !in open
      modifies this`open
      ensures Valid()
      ensures open == old(open) + [c]
    {
      open := open + [c];
      forall i, j | 0 <= i < j < |open| ensures open[i] != open[j] {
        if j == |open| - 1 { assert open[i] in old(open); }
      }
    }

    /** The `user_connected` handler: register, then broadcast the registry. */
    method UserConnected(s: ConnId, username: string)
      requires Valid() && s in open
      modifies this`names, this`reg, this`outbox
      ensures Valid()
      ensures (names, reg) == Upsert(old(names), old(reg), username, s)
      ensures outbox == old(outbox) + Fanout(open, OnlineUsers(Snapshot(names, reg)))
    {
      UpsertSpec(names, reg, username, s);
      if username !in reg {
        names := names + [username];
      }
      reg := reg[username := s];
      var users := Snapshot(names, reg);
      outbox := outbox + Fanout(open, OnlineUsers(users));
    }

    /** The `send_message` handler: a private message addressed by connection identifier. */
    method SendMessage(s: ConnId, message: string, receiver: ConnId)
      requires Valid() && s in open
      modifies this`outbox
      ensures Valid()
      ensures outbox == old(outbox) + Route(open, s, message, receiver)
    {
      outbox := outbox + Route(open, s, message, receiver);
    }

    /**
     * The `disconnect` handler, as written: the connection has already left
     * the broadcast room; its first registered name is deleted unless that
     * name is the empty string, and the registry is broadcast to the
     * connections still open.
     */
    method Disconnect(s: ConnId)
      requires Valid() && s in open
      modifies this`open, this`names, this`reg, this`outbox
      ensures Valid()
      ensures open == Without(old(open), [s])
      ensures (names, reg) == UnbindAsWritten(old(names), old(reg), s)
      ensures outbox == old(outbox) + Fanout(open, OnlineUsers(Snapshot(names, reg)))
    {
      WithoutDistinct(open, [s]);
      open := Without(open, [s]);
      UnbindKeepsDirectory(names, reg, s);
      var k := FirstBoundTo(names, reg, s);
      if k < |names| && names[k] != "" {
        var username := names[k];
        names := names[..k] + names[k + 1..];
        reg := reg - {username};
      }
      var users := Snapshot(names, reg);
      outbox := outbox + Fanout(open, OnlineUsers(users));
    }
  }

  /**
   * A user who reconnects gets a fresh connection: after the old connection
   * closes and the user registers again, the registry lists the user once,
   * at the new connection, and a message sent to the old identifier is
   * dropped while one sent to the new identifier is delivered.
   */
  lemma ReconnectScenario(a: ConnId, a2: ConnId, b: ConnId)
    requires a != a2 && a != b && a2 != b
    ensures var (n1, r1) := Upsert([], map[], "alice", a);
      var (n2, r2) := Upsert(n1, r1, "bob", b);
      var (n3, r3) := UnbindAsWritten(n2, r2, a);
      var (n4, r4) := Upsert(n3, r3, "alice", a2);
      && Snapshot(n2, r2) == [Entry(a, "alice"), Entry(b, "bob")]
      && Snapshot(n3, r3) == [Entry(b, "bob")]
      && Snapshot(n4, r4) == [Entry(b, "bob"), Entry(a2, "alice")]
      && Route([b, a2], b, "hi", a) == []
      && Route([b, a2], b, "hi", a2) == [(a2, ReceiveMessage(b, "hi"))]
  {
    var (n2, r2) := (["alice", "bob"], map["alice" := a, "bob" := b]);
    assert "bob" !in map["alice" := a];
    assert ["alice"] + ["bob"] == n2;
    assert map["alice" := a]["bob" := b] == r2;
    assert Upsert(["alice"], map["alice" := a], "bob", b) == (n2, r2);
    assert FirstBoundTo(n2, r2, a) == 0;
    assert r2 - {"alice"} == map["bob" := b];
    assert n2[..0] + n2[1..] == ["bob"];
    assert UnbindAsWritten(n2, r2, a) == (["bob"], map["bob" := b]);
  }
}
