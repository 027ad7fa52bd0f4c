/** Chat messages as both the browser client and the worker exchange them:
    a role and a content string, serialised as `{ role, content }`. */
module Messages {

  datatype Message = Message(role: string, content: string)

  const UserRole: string := "user"
  const AssistantRole: string := "assistant"
  const SystemRole: string := "system"

  /** No message of the list is a system directive. */
  predicate NoSystemRole(history: seq<Message>) {
    forall i :: 0 <= i < |history| ==> history[i].role != SystemRole
  }
}
