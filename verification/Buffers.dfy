/** A byte stream in the buffers that TCP delivers it in. */
module Buffers {
  function Flatten<T>(buffers: seq<seq<T>>): seq<T> {
    if buffers == [] then [] else buffers[0] + Flatten(buffers[1..])
  }
}
