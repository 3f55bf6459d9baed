/** The structs that live in the shared region besides the tree nodes. */
module UserData {

  const POOL_NODES: nat := 201000

  datatype User = User(name: string, password: string, birthdate: string,
                       phone: string, mobile: string, email: string)

  /** A list slot; next == 0 ends the list. */
  datatype ListNode = ListNode(data: User, next: nat, used: bool)

  /** Names by list slot. */
  function NamesOf(users: seq<ListNode>): (names: seq<string>)
    ensures |names| == |users|
    ensures forall i :: 0 <= i < |users| ==> names[i] == users[i].data.name
  {
    seq(|users|, i requires 0 <= i < |users| => users[i].data.name)
  }
}
