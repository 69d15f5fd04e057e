/** The kinds of message and their numbers. */
module Kinds {
  datatype Kind = HelloWord | Register | Login | Logout | AddFriend | CreateGroup | JoinGroup | OneChat | GroupChat

  const MSG_HELLO_WORD := 1001
  const MSG_REGISTER := 1002
  const MSG_LOGIN := 1003
  const MSG_LOGOUT := 1004
  const MSG_ADD_FRIEND := 1005
  const MSG_CREATE_GROUP := 1006
  const MSG_JOIN_GROUP := 1007
  const MSG_ONE_CHAT := 1008
  const MSG_GROUP_CHAT := 1009

  function Number(k: Kind): int {
    match k
    case HelloWord => MSG_HELLO_WORD
    case Register => MSG_REGISTER
    case Login => MSG_LOGIN
    case Logout => MSG_LOGOUT
    case AddFriend => MSG_ADD_FRIEND
    case CreateGroup => MSG_CREATE_GROUP
    case JoinGroup => MSG_JOIN_GROUP
    case OneChat => MSG_ONE_CHAT
    case GroupChat => MSG_GROUP_CHAT
  }

  /** Nine kinds, nine numbers. */
  lemma NumbersExactly(id: int)
    ensures (exists k :: Number(k) == id) <==> 1001 <= id <= 1009
    ensures forall k, l :: Number(k) == Number(l) ==> k == l
  {
    if 1001 <= id <= 1009 {
      var kinds := [HelloWord, Register, Login, Logout, AddFriend, CreateGroup, JoinGroup, OneChat, GroupChat];
      assert Number(kinds[id - 1001]) == id;
    }
  }
}
