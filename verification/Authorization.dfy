/** Who may command what, in which room. The tables are fixed at construction. */
module Authorization {
  import opened Models

  const READONLY := 10

  /** A role is its rank: 10 readonly, 20 home, 30 operator, 40 admin. */
  type Role = int

  datatype AuthorizedUser = AuthorizedUser(senderId: string, name: string, role: Role)

  datatype RoomPolicy = RoomPolicy(enabled: bool, minimumRole: Role, allowCommands: bool)

  datatype Authorizer = Authorizer(users: map<string, AuthorizedUser>, policies: map<string, RoomPolicy>) {

    function GetUser(sender: string): Option<AuthorizedUser> {
      if sender in users then Some(users[sender]) else None
    }

    function PolicyOf(message: InboundMessage): Option<RoomPolicy> {
      if policies == map[] then None
      else if message.sourceRoom.roomId in policies then Some(policies[message.sourceRoom.roomId])
      else None
    }

    predicate AllowsRoom(message: InboundMessage) {
      var policy := PolicyOf(message);
      if policy.None? then policies == map[] else policy.value.enabled && policy.value.allowCommands
    }

    function RequireMessage(message: InboundMessage, minimumRole: Role): Option<AuthorizedUser> {
      if !AllowsRoom(message) then None
      else
        var user := GetUser(message.sender);
        if user.None? then None
        else
          var policy := PolicyOf(message);
          var required := if policy.Some? && policy.value.minimumRole > minimumRole
            then policy.value.minimumRole else minimumRole;
          if user.value.role < required then None else user
    }

    /** The room is open to commands: no room is configured at all, or this one is, enabled and
        with commands allowed. */
    predicate RoomOpen(message: InboundMessage) {
      policies != map[] ==>
        && message.sourceRoom.roomId in policies
        && policies[message.sourceRoom.roomId].enabled
        && policies[message.sourceRoom.roomId].allowCommands
    }

    /** The user's role reaches both the command's minimum and the room's. */
    predicate Entitled(message: InboundMessage, minimumRole: Role, user: AuthorizedUser) {
      && message.sender in users && users[message.sender] == user
      && user.role >= minimumRole
      && (message.sourceRoom.roomId in policies ==> user.role >= policies[message.sourceRoom.roomId].minimumRole)
    }

    /** A sender is let through exactly when the room is open and the sender is entitled. */
    lemma AuthorizedExactly(message: InboundMessage, minimumRole: Role, user: AuthorizedUser)
      ensures AllowsRoom(message) <==> RoomOpen(message)
      ensures RequireMessage(message, minimumRole) == Some(user)
        <==> RoomOpen(message) && Entitled(message, minimumRole, user)
    {
    }
  }
}
