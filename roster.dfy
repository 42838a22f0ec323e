/**
 * The roster: the list of a room's participants that the server sends as
 * the `users` event, built afresh from the members' current fields every
 * time, one entry per member in the room's iteration order.
 */
module Rosters {
  import opened Values
  import opened Sockets

  datatype Information = Information(name: Value, picture: Value)

  /** One participant as the client sees it. */
  datatype Entry = Entry(userId: Value, connectionId: Value, presence: Value, information: Information)

  /**
   * Where an entry's presence comes from: the `register` handler sends
   * `null` for every member, the `presence` and `disconnect` handlers send
   * each member's stored presence.
   */
  datatype PresenceSource = NullPresence | StoredPresence

  /** The `Array.from(room).map(...)` expression. */
  function Roster(members: seq<Socket>, source: PresenceSource): (r: seq<Entry>)
    reads members
    ensures |r| == |members|
    ensures forall i :: 0 <= i < |members| ==>
      r[i].userId == members[i].userId && r[i].connectionId == members[i].connectionId &&
      r[i].information == Information(members[i].userName, members[i].userPicture)
    ensures forall i :: 0 <= i < |members| ==>
      r[i].presence == (if source == NullPresence then Null else members[i].presence)
  {
    if members == [] then []
    else
      var s := members[0];
      var presence := if source == NullPresence then Null else s.presence;
      [Entry(s.userId, s.connectionId, presence, Information(s.userName, s.userPicture))]
        + Roster(members[1..], source)
  }
}
