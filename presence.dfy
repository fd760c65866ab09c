/** The presence registry as values: the `users` table (socket id to user name and room) and
    the order in which a JavaScript `Map` iterates its keys, which is the order the keys were
    first inserted. Setting an existing key keeps its position; deleting a key removes it.
    The room member list sent to clients is a filtered view of the table in that order. */
module Presence {

  import opened Js

  type SocketId = string

  const MaxNameLength: nat := 50
  const DefaultRoom := "default"
  const InvalidUsername := "Invalid username"

  datatype User = User(userName: string, room: JsValue)

  /** One entry of a `userList` event. */
  datatype RoomUser = RoomUser(id: SocketId, userName: string)

  /** The join guard `typeof userName !== 'string' || userName.length > 50`, negated.
      A Dafny character stands for one UTF-16 code unit. */
  predicate ValidUserName(v: JsValue) {
    v.Str? && |v.s| <= MaxNameLength
  }

  /** The destructuring default `room = 'default'`: it applies to a missing (undefined) room
      only; `null` or any other value is kept as given. */
  function RoomOrDefault(room: JsValue): (r: JsValue)
    ensures r != Undefined
    ensures room == Undefined ==> r == Str(DefaultRoom)
    ensures room != Undefined ==> r == room
  {
    if room.Undefined? then Str(DefaultRoom) else room
  }

  predicate Distinct(s: seq<SocketId>) {
    forall i, j :: 0 <= i < j < |s| ==> s[i] != s[j]
  }

  /** `order` lists every key of `users` exactly once, and nothing else. */
  ghost predicate Keyed(order: seq<SocketId>, users: map<SocketId, User>) {
    && Distinct(order)
    && (forall id :: id in order ==> id in users)
    && (forall id :: id in users ==> id in order)
  }

  /** The iteration order after `users.set(id, ...)`: a new key goes last, an existing key
      stays where it was. */
  function OrderAfterSet(order: seq<SocketId>, id: SocketId): (r: seq<SocketId>)
    requires Distinct(order)
    ensures Distinct(r)
    ensures forall x :: x in r <==> x in order || x == id
    ensures id in order ==> r == order
    ensures id !in order ==> |r| == |order| + 1 && r[|order|] == id
    ensures forall i :: 0 <= i < |order| ==> r[i] == order[i]
  {
    if id in order then order else order + [id]
  }

  /** The iteration order after `users.delete(id)`. */
  function Without(order: seq<SocketId>, id: SocketId): (r: seq<SocketId>)
    requires Distinct(order)
    ensures Distinct(r)
    ensures forall x :: x in r <==> x in order && x != id
    ensures id !in order ==> r == order
    ensures id in order ==> exists k :: DropsAt(order, k, id, r)
    decreases |order|
  {
    if order == [] then []
    else
      assert order[0] !in order[1..] by { DistinctHead(order); }
      if order[0] == id then
        assert DropsAt(order, 0, id, order[1..]) by { assert order[..0] + order[1..] == order[1..]; }
        Without(order[1..], id)
      else
        var rest := Without(order[1..], id);
        assert id in order ==> DropsAt(order, WithoutIndex(order[1..], id, rest) + 1, id, [order[0]] + rest) by {
          if id in order {
            SpliceCons(order, id, rest, WithoutIndex(order[1..], id, rest));
          }
        }
        [order[0]] + rest
  }

  /** `r` is `order` with its entry `id`, at position `k`, taken out. */
  predicate DropsAt(order: seq<SocketId>, k: int, id: SocketId, r: seq<SocketId>) {
    0 <= k < |order| && order[k] == id && r == order[..k] + order[k + 1..]
  }

  ghost function WithoutIndex(order: seq<SocketId>, id: SocketId, r: seq<SocketId>): (k: int)
    requires exists k :: DropsAt(order, k, id, r)
    ensures DropsAt(order, k, id, r)
  {
    var k :| DropsAt(order, k, id, r); k
  }

  /** Dropping position k of the tail is dropping position k + 1 of the whole. */
  lemma SpliceCons(order: seq<SocketId>, id: SocketId, rest: seq<SocketId>, k: nat)
    requires order != [] && DropsAt(order[1..], k, id, rest)
    ensures DropsAt(order, k + 1, id, [order[0]] + rest)
  {
  }

  lemma DistinctHead(s: seq<SocketId>)
    requires Distinct(s) && s != []
    ensures s[0] !in s[1..] && Distinct(s[1..])
  {
  }

  /** The `userList` payload for `room`: the entries of `users` whose room is `room`, in
      iteration order, each as its id and user name. */
  function RoomUsers(order: seq<SocketId>, users: map<SocketId, User>, room: JsValue): (r: seq<RoomUser>)
    requires forall id :: id in order ==> id in users
    ensures |r| <= |order|
    ensures forall u :: u in r ==> u.id in order && users[u.id].room == room && u.userName == users[u.id].userName
    decreases |order|
  {
    if order == [] then []
    else
      var id := order[0];
      var rest := RoomUsers(order[1..], users, room);
      if users[id].room == room then [RoomUser(id, users[id].userName)] + rest else rest
  }

  /** A member list with every entry for socket `id` dropped. */
  function Exclude(list: seq<RoomUser>, id: SocketId): (r: seq<RoomUser>)
    ensures forall u :: u in r <==> u in list && u.id != id
    ensures |r| <= |list|
    decreases |list|
  {
    if list == [] then []
    else if list[0].id == id then Exclude(list[1..], id)
    else [list[0]] + Exclude(list[1..], id)
  }

  /** The member list of a room holds exactly the registered sockets in that room, each with
      its current user name. */
  lemma {:induction false} RoomUsersMembers(order: seq<SocketId>, users: map<SocketId, User>, room: JsValue)
    requires forall id :: id in order ==> id in users
    ensures forall u :: u in RoomUsers(order, users, room) <==>
      u.id in order && users[u.id].room == room && u.userName == users[u.id].userName
    decreases |order|
  {
    if order != [] {
      RoomUsersMembers(order[1..], users, room);
      forall u ensures u in RoomUsers(order, users, room) <==>
        u.id in order && users[u.id].room == room && u.userName == users[u.id].userName
      {
        assert u.id in order <==> u.id == order[0] || u.id in order[1..];
      }
    }
  }

  /** No socket appears twice in a member list. */
  lemma {:induction false} RoomUsersDistinct(order: seq<SocketId>, users: map<SocketId, User>, room: JsValue)
    requires Distinct(order)
    requires forall id :: id in order ==> id in users
    ensures forall i, j :: 0 <= i < j < |RoomUsers(order, users, room)| ==>
      RoomUsers(order, users, room)[i].id != RoomUsers(order, users, room)[j].id
    decreases |order|
  {
    if order != [] {
      var rest := RoomUsers(order[1..], users, room);
      RoomUsersDistinct(order[1..], users, room);
      RoomUsersMembers(order[1..], users, room);
      DistinctHead(order);
      forall k | 0 <= k < |rest| ensures rest[k].id != order[0] {
        assert rest[k] in rest;
      }
    }
  }

  /** After a socket is deleted, every room's member list is the previous one with that
      socket dropped, the others keeping their order and names. */
  lemma {:induction false} RoomUsersAfterDelete(order: seq<SocketId>, users: map<SocketId, User>, id: SocketId, room: JsValue)
    requires Distinct(order)
    requires forall x :: x in order ==> x in users
    ensures forall x :: x in Without(order, id) ==> x in users - {id}
    ensures RoomUsers(Without(order, id), users - {id}, room) == Exclude(RoomUsers(order, users, room), id)
    decreases |order|
  {
    if order != [] {
      DistinctHead(order);
      RoomUsersAfterDelete(order[1..], users, id, room);
    }
  }

  /** A member list reads only the entries its order names. */
  lemma {:induction false} RoomUsersFrame(order: seq<SocketId>, users: map<SocketId, User>, users': map<SocketId, User>, room: JsValue)
    requires forall id :: id in order ==> id in users && id in users' && users[id] == users'[id]
    ensures RoomUsers(order, users, room) == RoomUsers(order, users', room)
    decreases |order|
  {
    if order != [] {
      RoomUsersFrame(order[1..], users, users', room);
    }
  }

  /** After `users.set(id, User(name, room))` the list for `room` holds the joiner and
      exactly the earlier members of `room` other than `id`. */
  lemma JoinedRoomUsers(order: seq<SocketId>, users: map<SocketId, User>, id: SocketId, name: string, room: JsValue)
    requires Keyed(order, users)
    ensures Keyed(OrderAfterSet(order, id), users[id := User(name, room)])
    ensures forall u :: u in RoomUsers(OrderAfterSet(order, id), users[id := User(name, room)], room) <==>
      u == RoomUser(id, name) || (u in RoomUsers(order, users, room) && u.id != id)
  {
    var order', users' := OrderAfterSet(order, id), users[id := User(name, room)];
    RoomUsersMembers(order, users, room);
    RoomUsersMembers(order', users', room);
  }

  /** A join to `room` drops the joiner from the list of every other room (a socket that
      changes rooms leaves its former room's list), and otherwise leaves that list as it was. */
  lemma {:induction false} JoinOtherRoomUsers(order: seq<SocketId>, users: map<SocketId, User>, id: SocketId, name: string, room: JsValue, other: JsValue)
    requires Keyed(order, users)
    requires other != room
    ensures forall x :: x in OrderAfterSet(order, id) ==> x in users[id := User(name, room)]
    ensures RoomUsers(OrderAfterSet(order, id), users[id := User(name, room)], other)
      == Exclude(RoomUsers(order, users, other), id)
  {
    var users' := users[id := User(name, room)];
    if id in order {
      SetKeepsOthers(order, users, id, User(name, room), other);
    } else {
      RoomUsersFrame(order, users, users', other);
      RoomUsersAppend(order, [id], users', other);
      assert Exclude(RoomUsers(order, users, other), id) == RoomUsers(order, users, other) by {
        RoomUsersMembers(order, users, other);
        ExcludeAbsent(RoomUsers(order, users, other), id);
      }
    }
  }

  /** Overwriting an existing key with an entry outside `room` drops it from `room`'s list. */
  lemma {:induction false} SetKeepsOthers(order: seq<SocketId>, users: map<SocketId, User>, id: SocketId, user: User, room: JsValue)
    requires Distinct(order)
    requires forall x :: x in order ==> x in users
    requires user.room != room
    ensures RoomUsers(order, users[id := user], room) == Exclude(RoomUsers(order, users, room), id)
    decreases |order|
  {
    if order != [] {
      SetKeepsOthers(order[1..], users, id, user, room);
      if order[0] != id {
        RoomUsersMembers(order[1..], users, room);
      }
    }
  }

  lemma {:induction false} RoomUsersAppend(order: seq<SocketId>, more: seq<SocketId>, users: map<SocketId, User>, room: JsValue)
    requires forall x :: x in order + more ==> x in users
    ensures RoomUsers(order + more, users, room) == RoomUsers(order, users, room) + RoomUsers(more, users, room)
    decreases |order|
  {
    if order != [] {
      assert (order + more)[1..] == order[1..] + more;
      RoomUsersAppend(order[1..], more, users, room);
    } else {
      assert order + more == more;
    }
  }

  lemma {:induction false} ExcludeAbsent(list: seq<RoomUser>, id: SocketId)
    requires forall u :: u in list ==> u.id != id
    ensures Exclude(list, id) == list
    decreases |list|
  {
    if list != [] {
      ExcludeAbsent(list[1..], id);
    }
  }

}
