/**
 * One client connection. socket.io creates the object; the handshake
 * middleware attaches the verified identity and the connection handler
 * reads the room id from the handshake query. The event handlers then
 * overwrite the identity and presence fields in place.
 */
module Sockets {
  import opened Wrappers
  import opened Values
  import opened Auth

  /** The `roomId` handshake query parameter; `None` when the client sent none (the key `undefined`). */
  type RoomId = Option<string>

  class Socket {
    /** Fixed for the lifetime of the connection. */
    const roomId: RoomId
    var userId: Value
    var userEmail: Value
    var connectionId: Value
    var userName: Value
    var userPicture: Value
    var presence: Value

    /** An admitted connection: identity from the token's claims, everything else not yet set. */
    constructor (roomId: RoomId, claims: Claims)
      ensures this.roomId == roomId
      ensures userId == claims.sub && userEmail == claims.email
      ensures connectionId == Undefined && userName == Undefined && userPicture == Undefined
      ensures presence == Undefined
    {
      this.roomId := roomId;
      userId := claims.sub;
      userEmail := claims.email;
      connectionId := Undefined;
      userName := Undefined;
      userPicture := Undefined;
      presence := Undefined;
    }
  }
}
