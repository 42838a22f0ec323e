/**
 * The socket server: the `rooms` registry and the handlers that socket.io
 * runs for each connection. Node runs one handler at a time to completion,
 * so every handler is one atomic method or function. Each returns the
 * deliveries it emits instead of writing to sockets.
 */
module Server {
  import opened Wrappers
  import opened Values
  import opened Auth
  import opened Sockets
  import opened Rosters
  import opened Fanout
  import opened Registry

  /** Every member of a room's list was connected with that room id. */
  ghost predicate RoomIdsAgree(rooms: map<RoomId, seq<Socket>>)
  {
    forall k, i :: k in rooms && 0 <= i < |rooms[k]| ==> rooms[k][i].roomId == k
  }

  class RoomServer {
    /** `const rooms = new Map()`: room id to the room's members in insertion order. */
    var rooms: map<RoomId, seq<Socket>>

    ghost predicate Valid()
      reads this
    {
      RegistryOk(rooms) && RoomIdsAgree(rooms)
    }

    /** `s` is connected: its handlers' `room` is the registry's entry for its room id. */
    ghost predicate Joined(s: Socket)
      reads this
    {
      s.roomId in rooms && s in rooms[s.roomId]
    }

    constructor ()
      ensures Valid() && rooms == map[]
    {
      rooms := map[];
    }

    /**
     * A connection attempt: the middleware, then the connection handler.
     * A refused connection leaves the registry as it was; an admitted one
     * is a new socket carrying the token's claims, appended to its room.
     */
    method Connect(token: Value, roomId: RoomId, verify: Value -> Option<Claims>)
      returns (r: Result<Socket, string>)
      requires Valid()
      modifies this
      ensures Valid()
      ensures r.Err? ==> rooms == old(rooms) && Authenticate(token, verify) == Err(r.error)
      ensures r.Err? ==> r.error == (if Falsy(token) then TokenNotProvided else InvalidToken)
      ensures r.Ok? ==> !Falsy(token) && verify(token).Some? && !StringConversionThrows(verify(token).value.sub)
      ensures r.Ok? ==> fresh(r.value) && r.value.roomId == roomId
      ensures r.Ok? ==> r.value.userId == verify(token).value.sub && r.value.userEmail == verify(token).value.email
      ensures r.Ok? ==> r.value.connectionId == Undefined && r.value.userName == Undefined
      ensures r.Ok? ==> r.value.userPicture == Undefined && r.value.presence == Undefined
      ensures r.Ok? ==> rooms == Registry.Join(old(rooms), roomId, r.value)
      ensures r.Ok? ==> rooms[roomId] == Members(old(rooms), roomId) + [r.value]
    {
      var auth := Authenticate(token, verify);
      if auth.Err? {
        return Err(auth.error);
      }
      var s := new Socket(roomId, auth.value);
      Join(s);
      r := Ok(s);
    }

    /** `socket.join(roomId)` and the registry update: create the room if absent, then add `s`. */
    method Join(s: Socket)
      requires Valid()
      modifies this
      ensures Valid()
      ensures rooms == Registry.Join(old(rooms), s.roomId, s)
    {
      if s.roomId !in rooms {
        rooms := rooms[s.roomId := []];
      }
      var room := rooms[s.roomId];
      if s !in room {
        room := room + [s];
      }
      rooms := rooms[s.roomId := room];
    }

    /**
     * `register`: overwrite the sender's four identity fields, then send the
     * roster, with `null` presence for everyone, to the whole room, sender included.
     */
    method OnRegister(s: Socket, userId: Value, connectionId: Value, name: Value, picture: Value)
      returns (out: seq<Delivery>)
      requires Valid() && Joined(s)
      modifies s
      ensures s.userId == userId && s.connectionId == connectionId
      ensures s.userName == name && s.userPicture == picture
      ensures s.presence == old(s.presence) && s.userEmail == old(s.userEmail)
      ensures out == Broadcast(rooms[s.roomId], Users(Roster(rooms[s.roomId], NullPresence)))
      ensures Recipients(out) == rooms[s.roomId] && s in Recipients(out)
      ensures forall i :: 0 <= i < |out| ==> out[i].event.Name() == "users"
      ensures forall i :: 0 <= i < |out| ==> out[i].to.roomId == s.roomId
      ensures rooms[s.roomId] == [s] ==>
        out == [Delivery(s, Users([Entry(userId, connectionId, Null, Information(name, picture))]))]
    {
      s.userId := userId;
      s.connectionId := connectionId;
      s.userName := name;
      s.userPicture := picture;
      var room := rooms[s.roomId];
      out := Broadcast(room, Users(Roster(room, NullPresence)));
      forall i | 0 <= i < |out| ensures out[i].to.roomId == s.roomId {
        assert out[i].to == Recipients(out)[i];
      }
      if room == [s] {
        var roster := Roster(room, NullPresence);
        assert roster == [Entry(userId, connectionId, Null, Information(name, picture))];
        assert |out| == 1 && out[0].to == Recipients(out)[0] == s;
      }
    }

    /** `layer-update`: both arguments, unchanged, to every other member of the sender's room. */
    function OnLayerUpdate(s: Socket, updatedLayerIds: Value, updatedLayers: Value): (out: seq<Delivery>)
      reads this
      requires Valid() && Joined(s)
      ensures forall i :: 0 <= i < |out| ==>
        out[i].event == LayerUpdate(updatedLayerIds, updatedLayers) &&
        out[i].event.Name() == "layer-update" && out[i].to != s &&
        out[i].to in rooms[s.roomId] && out[i].to.roomId == s.roomId
      ensures forall i :: 0 <= i < |rooms[s.roomId]| && rooms[s.roomId][i] != s ==>
        rooms[s.roomId][i] in Recipients(out)
      ensures NoDups(Recipients(out))
    {
      BroadcastExcept(rooms[s.roomId], s, LayerUpdate(updatedLayerIds, updatedLayers))
    }

    /**
     * `presence`: store the new presence on the sender, then send the roster,
     * with each member's stored presence, to every other member of the room.
     * The handler's second argument is not used.
     */
    method OnPresence(s: Socket, newPresence: Value, userId: Value) returns (out: seq<Delivery>)
      requires Valid() && Joined(s)
      modifies s
      ensures s.presence == newPresence
      ensures s.userId == old(s.userId) && s.connectionId == old(s.connectionId)
      ensures s.userName == old(s.userName) && s.userPicture == old(s.userPicture)
      ensures s.userEmail == old(s.userEmail)
      ensures out == BroadcastExcept(rooms[s.roomId], s, Users(Roster(rooms[s.roomId], StoredPresence)))
      ensures forall i :: 0 <= i < |out| ==> out[i].to != s && out[i].to.roomId == s.roomId
      ensures forall i :: 0 <= i < |out| ==> out[i].event.Name() == "users"
      ensures forall i :: 0 <= i < |rooms[s.roomId]| && rooms[s.roomId][i] != s ==>
        rooms[s.roomId][i] in Recipients(out)
    {
      s.presence := newPresence;
      var room := rooms[s.roomId];
      out := BroadcastExcept(room, s, Users(Roster(room, StoredPresence)));
    }

    /** `layer-send`: the array, unchanged, to every other member of the sender's room. */
    function OnLayerSend(s: Socket, arr: Value): (out: seq<Delivery>)
      reads this
      requires Valid() && Joined(s)
      ensures forall i :: 0 <= i < |out| ==>
        out[i].event == LayerSend(arr) && out[i].event.Name() == "layer-send" && out[i].to != s &&
        out[i].to in rooms[s.roomId] && out[i].to.roomId == s.roomId
      ensures forall i :: 0 <= i < |rooms[s.roomId]| && rooms[s.roomId][i] != s ==>
        rooms[s.roomId][i] in Recipients(out)
      ensures NoDups(Recipients(out))
    {
      BroadcastExcept(rooms[s.roomId], s, LayerSend(arr))
    }

    /** `layer-delete`: the id list, unchanged, to every other member of the sender's room. */
    function OnLayerDelete(s: Socket, layerIds: Value): (out: seq<Delivery>)
      reads this
      requires Valid() && Joined(s)
      ensures forall i :: 0 <= i < |out| ==>
        out[i].event == LayerDelete(layerIds) && out[i].event.Name() == "layer-delete" && out[i].to != s &&
        out[i].to in rooms[s.roomId] && out[i].to.roomId == s.roomId
      ensures forall i :: 0 <= i < |rooms[s.roomId]| && rooms[s.roomId][i] != s ==>
        rooms[s.roomId][i] in Recipients(out)
      ensures NoDups(Recipients(out))
    {
      BroadcastExcept(rooms[s.roomId], s, LayerDelete(layerIds))
    }

    /**
     * `disconnect`: delete the sender from its room; drop the room if that
     * empties it, otherwise send the roster, with stored presence, to the
     * members that remain.
     */
    method OnDisconnect(s: Socket) returns (out: seq<Delivery>)
      requires Valid() && Joined(s)
      modifies this
      ensures Valid()
      ensures rooms == Leave(old(rooms), s.roomId, s)
      ensures s.roomId !in rooms <==> old(rooms[s.roomId]) == [s]
      ensures s.roomId !in rooms ==> out == []
      ensures s.roomId in rooms ==>
        rooms[s.roomId] == Without(old(rooms[s.roomId]), s) &&
        out == Broadcast(rooms[s.roomId], Users(Roster(rooms[s.roomId], StoredPresence)))
      ensures forall i :: 0 <= i < |out| ==>
        out[i].to != s && out[i].to in old(rooms[s.roomId]) && out[i].to.roomId == s.roomId
      ensures forall i :: 0 <= i < |out| ==> out[i].event.Name() == "users"
    {
      LeaveDropsRoomIffLast(rooms, s.roomId, s);
      var room := Without(rooms[s.roomId], s);
      rooms := rooms[s.roomId := room];
      if |room| == 0 {
        rooms := rooms - {s.roomId};
        out := [];
      } else {
        out := Broadcast(room, Users(Roster(room, StoredPresence)));
        forall i | 0 <= i < |out|
          ensures out[i].to != s && out[i].to in old(rooms[s.roomId]) && out[i].to.roomId == s.roomId
        {
          assert out[i].to == room[i];
        }
      }
    }
  }
}
