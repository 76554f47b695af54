/** The exceptions the core throws, and the two message builders of
    impl/.../service/exceptions. */
module Exceptions {
  import opened Common

  /** One constructor per exception class the core throws. */
  datatype Error =
    | SyntaxErrorException(desc: string, section: string)
    | ExceptResException(exceptionMessage: string, output: seq<byte>)
    | ExecTimeOutException(timeout: int, output: seq<byte>)
    | UnknownIdException(message: string)
    | DeletionException(message: string)
    | IllegalArgumentException(message: string)
    | IndexOutOfBoundsException
    | NullPointerException
    | SortParametersException(message: string)
    | PaginationException(message: string)

  const UnknownIdPrefix: string := "There is no such id, id: "
  // Split in two only so that the verifier unfolds the literal.
  const DeletionPrefix: string := "To delete the script " + "it should be done or canceled, id: "

  /** `UnknownIdException.generateMessage`: the fixed text, then the id. */
  function UnknownIdMessage(id: string): (r: string)
    ensures |r| == |UnknownIdPrefix| + |id|
    ensures r[..|UnknownIdPrefix|] == UnknownIdPrefix && r[|UnknownIdPrefix|..] == id
  {
    UnknownIdPrefix + id
  }

  /** `DeletionException.generateMessage`: the fixed text, then the id. */
  function DeletionMessage(id: string): (r: string)
    ensures |r| == |DeletionPrefix| + |id|
    ensures r[..|DeletionPrefix|] == DeletionPrefix && r[|DeletionPrefix|..] == id
  {
    DeletionPrefix + id
  }

  /** `new UnknownIdException(id)`: its message is `generateMessage(id)`. */
  function UnknownId(id: string): (e: Error)
    ensures e.UnknownIdException? && e.message == UnknownIdMessage(id)
  {
    UnknownIdException(UnknownIdMessage(id))
  }

  /** `new DeletionException(id)`: its message is `generateMessage(id)`. */
  function Deletion(id: string): (e: Error)
    ensures e.DeletionException? && e.message == DeletionMessage(id)
  {
    DeletionException(DeletionMessage(id))
  }

  /** The id can be read back from either message, so distinct ids give
      distinct messages, and the two kinds of message never coincide. */
  lemma {:induction false} MessagesIdentifyTheId(a: string, b: string)
    ensures UnknownIdMessage(a) == UnknownIdMessage(b) ==> a == b
    ensures DeletionMessage(a) == DeletionMessage(b) ==> a == b
    ensures UnknownIdMessage(a) != DeletionMessage(b)
  {
    var u, d := UnknownIdMessage(a), DeletionMessage(b);
    assert u[1] == UnknownIdPrefix[1] == 'h';
    assert d[1] == DeletionPrefix[1] == 'o';
  }
}
