/**
 * The parts of the chat protocol the two agents look at: the kinds of content
 * item they act on. Other kinds are ignored by both agents and not modelled.
 */
module Chat {

  /** One item of a chat message's content list, of a kind the agents act on. */
  datatype Content = StartSession | Text(text: string) | EndSession
}
