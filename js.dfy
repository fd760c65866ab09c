/** The JavaScript values a client can put in an event payload, as far as the handlers
    look at them: `typeof` distinguishes the kinds, `===` compares primitives by value and
    objects (and arrays) by reference, so an object is represented by its identity only.
    A missing field reads as `Undefined`. */
module Js {

  datatype JsValue =
    | Undefined
    | Null
    | Bool(b: bool)
    | Num(n: int)
    | Str(s: string)
    | Ref(id: nat)

}
