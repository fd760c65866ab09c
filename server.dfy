/** The signaling server's shared state and its socket event handlers. Each handler runs to
    completion before the next one starts, so each is an atomic method. Everything the server
    sends is appended to `out`: `io.to(x).emit(...)` addresses the room named `x` (every socket
    is also in a room named after its own id), `socket.emit(...)` addresses the calling socket. */
module Server {

  import opened Js
  import opened Limiter
  import opened Presence

  const TargetNotFound := "Target user not found"
  const NotAuthenticated := "Not authenticated"

  datatype Target = ToRoom(room: JsValue) | ToSocket(id: SocketId)

  datatype Payload =
    | UserList(members: seq<RoomUser>)
    | OfferData(from: SocketId, offer: JsValue, userName: string)
    | AnswerData(from: SocketId, answer: JsValue)
    | CandidateData(from: SocketId, candidate: JsValue)
    | ErrorText(message: string)
    | SocketRef(id: SocketId)

  datatype Event = Event(to: Target, name: string, payload: Payload)

  /** What the connection middleware tells socket.io: go on, or refuse with an error. */
  datatype Admission = Admit | Refuse(reason: string)

  function ErrorTo(sid: SocketId, message: string): Event {
    Event(ToSocket(sid), "error", ErrorText(message))
  }

  class SignalingServer {
    /** `connectionAttempts`: admissions per client address in the current window. */
    var attempts: map<Ip, nat>
    /** `users`: socket id to user name and room. */
    var users: map<SocketId, User>
    /** The iteration order of `users`. */
    var order: seq<SocketId>
    /** Every event emitted so far, oldest first. */
    var out: seq<Event>

    ghost predicate Valid()
      reads this
    {
      && Keyed(order, users)
      && (forall id :: id in users ==> |users[id].userName| <= MaxNameLength && users[id].room != Undefined)
      && (forall ip :: ip in attempts ==> 1 <= attempts[ip] <= MaxAttempts + 1)
    }

    constructor ()
      ensures Valid()
      ensures attempts == map[] && users == map[] && order == [] && out == []
    {
      attempts, users, order, out := map[], map[], [], [];
    }

    /** The `io.use` middleware, for a connection from `ip`. */
    method Connect(ip: Ip) returns (r: Admission)
      requires Valid()
      modifies this`attempts
      ensures Valid()
      ensures r == (if Allows(old(attempts), ip) then Admit else Refuse(TooManyAttempts))
      ensures attempts == Step(old(attempts), ip)
      ensures r.Admit? ==> Count(attempts, ip) == Count(old(attempts), ip) + 1
      ensures r.Refuse? ==> attempts == old(attempts)
    {
      var n := if ip in attempts then attempts[ip] else 0;
      if n > MaxAttempts {
        return Refuse(TooManyAttempts);
      }
      attempts := attempts[ip := n + 1];
      r := Admit;
    }

    /** The 60-second timer that empties the attempts table. */
    method ClearWindow()
      requires Valid()
      modifies this`attempts
      ensures Valid()
      ensures attempts == map[]
      ensures forall ip :: Count(attempts, ip) == 0 && Allows(attempts, ip)
    {
      attempts := map[];
    }

    /** The `join` handler of socket `sid`, with the payload fields `userName` and `room`
        (`Undefined` when absent). */
    method Join(sid: SocketId, userName: JsValue, room: JsValue)
      requires Valid()
      modifies this`users, this`order, this`out
      ensures Valid()
      ensures !ValidUserName(userName) ==>
        && users == old(users) && order == old(order)
        && out == old(out) + [ErrorTo(sid, InvalidUsername)]
      ensures ValidUserName(userName) ==>
        var joined := RoomOrDefault(room);
        && users == old(users)[sid := User(userName.s, joined)]
        && order == OrderAfterSet(old(order), sid)
        && out == old(out) + [Event(ToRoom(joined), "userList", UserList(RoomUsers(order, users, joined)))]
        && RoomUser(sid, userName.s) in RoomUsers(order, users, joined)
    {
      if !userName.Str? || |userName.s| > MaxNameLength {
        out := out + [ErrorTo(sid, InvalidUsername)];
        return;
      }
      var joined := RoomOrDefault(room);
      JoinedRoomUsers(order, users, sid, userName.s, joined);
      users := users[sid := User(userName.s, joined)];
      order := OrderAfterSet(order, sid);
      var roomUsers := RoomUsers(order, users, joined);
      out := out + [Event(ToRoom(joined), "userList", UserList(roomUsers))];
    }

    /** The `offer` handler: the target must be registered, then the sender. */
    method Offer(sid: SocketId, to: JsValue, offer: JsValue)
      requires Valid()
      modifies this`out
      ensures Valid()
      ensures !(to.Str? && to.s in users) ==> out == old(out) + [ErrorTo(sid, TargetNotFound)]
      ensures to.Str? && to.s in users && sid !in users ==> out == old(out) + [ErrorTo(sid, NotAuthenticated)]
      ensures to.Str? && to.s in users && sid in users ==>
        out == old(out) + [Event(ToRoom(to), "offer", OfferData(sid, offer, users[sid].userName))]
    {
      if !(to.Str? && to.s in users) {
        out := out + [ErrorTo(sid, TargetNotFound)];
        return;
      }
      if sid !in users {
        out := out + [ErrorTo(sid, NotAuthenticated)];
        return;
      }
      var sender := users[sid];
      out := out + [Event(ToRoom(to), "offer", OfferData(sid, offer, sender.userName))];
    }

    /** The `answer` handler: only the target must be registered. */
    method Answer(sid: SocketId, to: JsValue, answer: JsValue)
      requires Valid()
      modifies this`out
      ensures Valid()
      ensures !(to.Str? && to.s in users) ==> out == old(out) + [ErrorTo(sid, TargetNotFound)]
      ensures to.Str? && to.s in users ==>
        out == old(out) + [Event(ToRoom(to), "answer", AnswerData(sid, answer))]
    {
      if !(to.Str? && to.s in users) {
        out := out + [ErrorTo(sid, TargetNotFound)];
        return;
      }
      out := out + [Event(ToRoom(to), "answer", AnswerData(sid, answer))];
    }

    /** The `candidate` handler: only the target must be registered. */
    method Candidate(sid: SocketId, to: JsValue, candidate: JsValue)
      requires Valid()
      modifies this`out
      ensures Valid()
      ensures !(to.Str? && to.s in users) ==> out == old(out) + [ErrorTo(sid, TargetNotFound)]
      ensures to.Str? && to.s in users ==>
        out == old(out) + [Event(ToRoom(to), "candidate", CandidateData(sid, candidate))]
    {
      if !(to.Str? && to.s in users) {
        out := out + [ErrorTo(sid, TargetNotFound)];
        return;
      }
      out := out + [Event(ToRoom(to), "candidate", CandidateData(sid, candidate))];
    }

    /** The `disconnect` handler of socket `sid`. */
    method Disconnect(sid: SocketId)
      requires Valid()
      modifies this`users, this`order, this`out
      ensures Valid()
      ensures sid !in old(users) ==> users == old(users) && order == old(order) && out == old(out)
      ensures sid in old(users) ==>
        var room := old(users)[sid].room;
        && users == old(users) - {sid}
        && order == Without(old(order), sid)
        && out == old(out) + [
             Event(ToRoom(room), "userList", UserList(Exclude(RoomUsers(old(order), old(users), room), sid))),
             Event(ToRoom(room), "userDisconnected", SocketRef(sid))]
        && Exclude(RoomUsers(old(order), old(users), room), sid) == RoomUsers(order, users, room)
    {
      if sid !in users {
        return;
      }
      var room := users[sid].room;
      RoomUsersAfterDelete(order, users, sid, room);
      users := users - {sid};
      order := Without(order, sid);
      var roomUsers := RoomUsers(order, users, room);
      out := out + [Event(ToRoom(room), "userList", UserList(roomUsers)),
                    Event(ToRoom(room), "userDisconnected", SocketRef(sid))];
    }
  }

  /** Two sockets join the default room; the second join lists both, in join order. */
  method JoinScenario() returns (server: SignalingServer)
    ensures fresh(server) && server.Valid()
    ensures server.order == ["A", "B"]
    ensures server.users == map["A" := User("alice", Str(DefaultRoom)), "B" := User("bob", Str(DefaultRoom))]
  {
    server := new SignalingServer();
    server.Join("A", Str("alice"), Undefined);
    assert server.order == ["A"];
    assert "B" !in server.order by { assert "A"[0] != "B"[0]; }
    server.Join("B", Str("bob"), Undefined);
    assert server.order == ["A", "B"];
    assert server.order[1..] == ["B"] && server.order[1..][1..] == [];
    var room := Str(DefaultRoom);
    assert RoomUsers(["B"], server.users, room) == [RoomUser("B", "bob")];
    assert RoomUsers(["A", "B"], server.users, room) == [RoomUser("A", "alice"), RoomUser("B", "bob")];
    assert server.out[1] == Event(ToRoom(Str(DefaultRoom)), "userList",
      UserList([RoomUser("A", "alice"), RoomUser("B", "bob")]));
  }

  /** An offer between the two joined sockets is delivered; one from an unregistered socket
      is refused, and so is a candidate to an unknown target. */
  method RelayScenario() {
    var server := JoinScenario();
    var n := |server.out|;
    server.Offer("A", Str("B"), Ref(7));
    assert server.out[n] == Event(ToRoom(Str("B")), "offer", OfferData("A", Ref(7), "alice"));
    server.Offer("C", Str("B"), Ref(8));
    assert server.out[n + 1] == ErrorTo("C", NotAuthenticated);
    server.Candidate("B", Str("C"), Null);
    assert server.out[n + 2] == ErrorTo("B", TargetNotFound);
  }

  /** When one of the two leaves, the room is told who remains, then who left. */
  method DisconnectScenario() {
    var server := JoinScenario();
    var n := |server.out|;
    var room := Str(DefaultRoom);
    var before := RoomUsers(server.order, server.users, room);
    assert ["A", "B"][1..] == ["B"] && ["B"][1..] == [];
    assert before == [RoomUser("A", "alice"), RoomUser("B", "bob")];
    assert "B"[0] != "A"[0];
    assert Exclude(before, "A") == [RoomUser("B", "bob")] by {
      assert before[1..] == [RoomUser("B", "bob")] && before[1..][1..] == [];
    }
    server.Disconnect("A");
    assert server.users == map["B" := User("bob", room)];
    assert server.out[n] == Event(ToRoom(room), "userList", UserList([RoomUser("B", "bob")]));
    assert server.out[n + 1] == Event(ToRoom(room), "userDisconnected", SocketRef("A"));
  }

}
