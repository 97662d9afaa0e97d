/** The value types of lopack: machine integers, time tags and tagged OSC arguments. */
module OscTypes {

  datatype Option<+T> = None | Some(value: T)

  const TWO_32: int := 0x1_0000_0000

  type Byte = x: int | 0 <= x < 0x100
  type Word = x: int | 0 <= x < 0x1_0000_0000
  type Int8 = x: int | -0x80 <= x < 0x80
  type Int32 = x: int | -0x8000_0000 <= x < 0x8000_0000
  type Int64 = x: int | -0x8000_0000_0000_0000 <= x < 0x8000_0000_0000_0000

  /** Seconds since 1900 and 1/2^32 fractions of a second. */
  datatype TimeTag = TimeTag(sec: Word, frac: Word)

  /** liblo's LO_TT_IMMEDIATE. */
  const IMMEDIATE: TimeTag := TimeTag(0, 1)

  /** One tagged argument of a message. Floating-point values are modelled as reals. */
  datatype Arg =
    | Bool(b: bool)
    | Char(c: Int8)
    | Nil
    | Infinitum
    | Int32(i: Int32)
    | Int64(h: Int64)
    | Float(f: real)
    | Double(d: real)
    | String(s: string)
    | Symbol(name: string)
    | Midi(b0: Byte, b1: Byte, b2: Byte, b3: Byte)
    | Time(t: TimeTag)
    | Blob(data: seq<Byte>)

  /** What a C callee sees of a string: everything before the first NUL. */
  function CStr(s: string): (r: string)
    ensures r <= s
    ensures '\0' !in r
    ensures r == s <==> '\0' !in s
    ensures r != s ==> s[|r|] == '\0'
  {
    if s == [] || s[0] == '\0' then [] else [s[0]] + CStr(s[1..])
  }

  /** The argument as liblo stores it: strings are passed through `c_str()`. */
  function OnWire(a: Arg): (r: Arg)
  {
    match a
    case String(s) => String(CStr(s))
    case Symbol(s) => Symbol(CStr(s))
    case _ => a
  }

  function OnWireAll(args: seq<Arg>): (r: seq<Arg>) {
    if args == [] then [] else [OnWire(args[0])] + OnWireAll(args[1..])
  }

  lemma {:induction false} OnWireEach(args: seq<Arg>)
    ensures |OnWireAll(args)| == |args|
    ensures forall i :: 0 <= i < |args| ==> OnWireAll(args)[i] == OnWire(args[i])
  {
    if args != [] {
      OnWireEach(args[1..]);
    }
  }

  lemma Associative<T>(a: seq<T>, b: seq<T>, c: seq<T>)
    ensures a + (b + c) == a + b + c
  {
  }
}
