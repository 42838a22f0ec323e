/**
 * The events the server emits and the two ways it addresses them:
 * `io.to(roomId).emit` reaches every member of the room, and
 * `socket.to(roomId).emit` every member except the emitting socket.
 * An emit is modelled as the list of deliveries it causes, one per
 * recipient, in the room's order. socket.io's own room membership is
 * taken to be the registry's member list for that room, which `join` on
 * connection and the registry update establish together.
 */
module Fanout {
  import opened Values
  import opened Sockets
  import opened Rosters
  import opened Registry

  datatype Event =
    | Users(roster: seq<Entry>)
    | LayerUpdate(updatedLayerIds: Value, updatedLayers: Value)
    | LayerSend(arr: Value)
    | LayerDelete(layerIds: Value)
  {
    /** The event name on the wire. */
    function Name(): string
    {
      match this
      case Users(_) => "users"
      case LayerUpdate(_, _) => "layer-update"
      case LayerSend(_) => "layer-send"
      case LayerDelete(_) => "layer-delete"
    }
  }

  datatype Delivery = Delivery(to: Socket, event: Event)

  /** Who receives the deliveries, in order. */
  function Recipients(out: seq<Delivery>): seq<Socket>
  {
    seq(|out|, i requires 0 <= i < |out| => out[i].to)
  }

  /** `io.to(roomId).emit(e)`: the event, unchanged, to each member once. */
  function Broadcast(members: seq<Socket>, e: Event): (out: seq<Delivery>)
    ensures Recipients(out) == members
    ensures forall i :: 0 <= i < |out| ==> out[i].event == e
  {
    if members == [] then []
    else [Delivery(members[0], e)] + Broadcast(members[1..], e)
  }

  /** `socket.to(roomId).emit(e)`: the event, unchanged, to each member other than the sender. */
  function BroadcastExcept(members: seq<Socket>, sender: Socket, e: Event): (out: seq<Delivery>)
    ensures forall i :: 0 <= i < |out| ==> out[i].to in members && out[i].to != sender && out[i].event == e
    ensures forall i :: 0 <= i < |members| && members[i] != sender ==> members[i] in Recipients(out)
    ensures sender !in Recipients(out)
    ensures NoDups(members) ==> NoDups(Recipients(out))
  {
    var out := Broadcast(Without(members, sender), e);
    assert forall i :: 0 <= i < |out| ==> out[i].to == Recipients(out)[i];
    out
  }
}
