/** The JavaScript values that cross the interface of the Core singleton. */
module Values {

  datatype Option<+T> = None | Some(value: T)

  /** A handler function: `id` stands for the object's identity, `text` for
      what `toString()` returns on it, which is all Core.js compares. */
  datatype Handler = Handler(id: nat, text: string)

  /** Any JavaScript value, with the distinctions Core.js tests with `typeof`. */
  datatype Value =
    | Undefined
    | Null
    | Bool(b: bool)
    | Num(n: int)
    | Str(s: string)
    | Fn(handler: Handler)
    | Obj(ref: nat)

  /** One call `handler(data)` made by `emit`. */
  datatype Invocation = Invocation(handler: Handler, data: Value)
}
