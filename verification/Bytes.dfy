/** Bytes, text and the small result types that every other module uses.

    A byte is a character below U+0100, so that literals such as "null" and '{'
    can be written as they are in the server's own code. A `Text` is the byte
    sequence of a Rust string; the modules that need it say that it is valid UTF-8.
 */
module Bytes {
  type Byte = c: char | c < '\U{100}' witness 'a'

  type Text = seq<Byte>

  datatype Option<+T> = None | Some(value: T)

  datatype Result<+T, +E> = Ok(value: T) | Err(error: E)

  /** Concatenation of a sequence of byte strings. */
  function Flatten(parts: seq<Text>): Text {
    if parts == [] then [] else parts[0] + Flatten(parts[1..])
  }

  lemma {:induction false} FlattenSnoc(parts: seq<Text>, last: Text)
    ensures Flatten(parts + [last]) == Flatten(parts) + last
  {
    if parts == [] {
      assert Flatten([last]) == last + Flatten([last][1..]);
    } else {
      assert (parts + [last])[1..] == parts[1..] + [last];
      FlattenSnoc(parts[1..], last);
    }
  }

  // ==== concatenation, where the verifier does not reassociate by itself ====

  lemma Assoc(a: Text, b: Text, c: Text)
    ensures (a + b) + c == a + (b + c)
  {
  }

  lemma AfterFirst(h: Byte, t: Text, rest: Text)
    ensures ([h] + t) + rest != [] && (([h] + t) + rest)[0] == h && (([h] + t) + rest)[1..] == t + rest
  {
  }

  lemma Shift(a: Text, p: Text, d: Text, e: Text)
    ensures a + ((p + d) + e) == (a + p) + (d + e)
  {
  }

  lemma NilLeft(a: Text)
    ensures [] + a == a && a + [] == a && "" + a == a
  {
  }

  lemma Parts(a: Text, b: Text)
    ensures (a + b)[..|a|] == a && (a + b)[|a|..] == b
  {
  }

  // ==== decoders, which give nothing when any part is malformed ====

  /** The bytes of `out` before what the rest decodes to, if it does. */
  function After(out: Text, tail: Option<Text>): Option<Text> {
    match tail case None => None case Some(t) => Some(out + t)
  }

  lemma AfterTwo(out: Text, more: Text, tail: Option<Text>)
    ensures After(out + more, tail) == After(out, After(more, tail))
  {
    if tail.Some? {
      Assoc(out, more, tail.value);
    }
  }

  lemma AfterNone(tail: Option<Text>)
    ensures After([], tail) == tail
  {
    if tail.Some? {
      NilLeft(tail.value);
    }
  }
}
