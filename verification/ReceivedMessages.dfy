/** Typed access to the arguments of a received message, and the way an argument takes from sender to reader. */
module ReceivedMessages {
  import opened OscTypes
  import opened Packets
  import opened SenderSpec
  import opened SenderRoundTrip

  datatype ReceivedMessage = ReceivedMessage(address: string, args: seq<Arg>)

  datatype Failure = TypeException | ArgException
  datatype Result<+T> = Ok(value: T) | Err(e: Failure)

  /** liblo's type tag of an argument. */
  function Tag(a: Arg): char {
    match a
    case Bool(b) => if b then 'T' else 'F'
    case Char(_) => 'c'
    case Nil => 'N'
    case Infinitum => 'I'
    case Int32(_) => 'i'
    case Int64(_) => 'h'
    case Float(_) => 'f'
    case Double(_) => 'd'
    case String(_) => 's'
    case Symbol(_) => 'S'
    case Midi(_, _, _, _) => 'm'
    case Time(_) => 't'
    case Blob(_) => 'b'
  }

  function Types(args: seq<Arg>): string {
    seq(|args|, i requires 0 <= i < |args| => Tag(args[i]))
  }

  predicate CheckAddressAndTypes(m: ReceivedMessage, address: string, types: string) {
    address == m.address && types == Types(m.args)
  }

  function TypeTag(m: ReceivedMessage, at: nat): char {
    if at < |m.args| then Types(m.args)[at] else '*'
  }

  function RawArg(m: ReceivedMessage, at: nat): Result<Arg> {
    if at < |m.args| then Ok(m.args[at]) else Err(ArgException)
  }

  /** The type-checked readers `asBool`, `asChar`, and so on. */
  datatype Kind = ABool | AChar | AnInt32 | AnInt64 | AFloat | ADouble | AString | ASymbol | AMidi | ATime

  predicate Is(k: Kind, m: ReceivedMessage, at: nat) {
    Fits(k, TypeTag(m, at))
  }

  predicate Fits(k: Kind, t: char) {
    match k
    case ABool => t == 'T' || t == 'F'
    case AChar => t == 'c'
    case AnInt32 => t == 'i'
    case AnInt64 => t == 'h'
    case AFloat => t == 'f'
    case ADouble => t == 'd'
    case AString => t == 's'
    case ASymbol => t == 'S'
    case AMidi => t == 'm'
    case ATime => t == 't'
  }

  /** What a reader hands out. */
  datatype Value =
    | Truth(b: bool)
    | Code(c: Byte)
    | Whole(v: int)
    | Number(r: real)
    | Text(s: string)
    | Bytes(bytes: seq<Byte>)
    | When(t: TimeTag)

  /** Reading the union member of kind `k`; only the member that was written can be read. */
  function Member(k: Kind, a: Arg): Option<Value> {
    match a
    case Char(c) => if k.AChar? then Some(Code(c % 0x100)) else None
    case Int32(i) => if k.AnInt32? then Some(Whole(i)) else None
    case Int64(h) => if k.AnInt64? then Some(Whole(h)) else None
    case Float(f) => if k.AFloat? then Some(Number(f)) else None
    case Double(d) => if k.ADouble? then Some(Number(d)) else None
    case String(s) => if k.AString? then Some(Text(s)) else None
    case Symbol(s) => if k.ASymbol? then Some(Text(s)) else None
    case Midi(b0, b1, b2, b3) => if k.AMidi? then Some(Bytes([b3, b2, b1, b0])) else None
    case Time(t) => if k.ATime? then Some(When(t)) else None
    case _ => None
  }

  /** `asBool` and its siblings: check the tag, then fetch the argument. `None` would be reading the wrong member. */
  function As(k: Kind, m: ReceivedMessage, at: nat): Option<Result<Value>> {
    if !Is(k, m, at) then Some(Err(TypeException))
    else if k.ABool? then Some(Ok(Truth(TypeTag(m, at) == 'T')))
    else
      match RawArg(m, at)
      case Err(e) => Some(Err(e))
      case Ok(a) => (match Member(k, a) case Some(v) => Some(Ok(v)) case None => None)
  }

  // The argument round trip

  /** What the reader is to see of an argument the sender added, by the reader that fits it. */
  function Seen(a: Arg): Option<(Kind, Value)> {
    match a
    case Bool(b) => Some((ABool, Truth(b)))
    case Char(c) => Some((AChar, Code(if c < 0 then c + 256 else c)))
    case Int32(i) => Some((AnInt32, Whole(i)))
    case Int64(h) => Some((AnInt64, Whole(h)))
    case Float(f) => Some((AFloat, Number(f)))
    case Double(d) => Some((ADouble, Number(d)))
    case String(s) => Some((AString, Text(CStr(s))))
    case Symbol(s) => Some((ASymbol, Text(CStr(s))))
    case Midi(b0, b1, b2, b3) => Some((AMidi, Bytes([b3, b2, b1, b0])))
    case Time(t) => Some((ATime, When(t)))
    case Nil => None
    case Infinitum => None
    case Blob(_) => None
  }

  /** Transport delivers what was sent: the messages of a packet, in order, each on its own. */
  function Deliveries(p: Packet): (r: seq<ReceivedMessage>)
    decreases p, 1
  {
    match p
    case Message(path, args) => [ReceivedMessage(path, args)]
    case Bundle(_, elems) => DeliveriesAll(elems)
  }

  function DeliveriesAll(ps: seq<Packet>): (r: seq<ReceivedMessage>)
    decreases ps, 0
  {
    if ps == [] then [] else Deliveries(ps[0]) + DeliveriesAll(ps[1..])
  }

  /** Exactly one reader fits an argument, and it reads the member that was written. */
  lemma ReaderFits(k: Kind, a: Arg)
    ensures Fits(k, Tag(a)) <==> Seen(a).Some? && Seen(a).value.0 == k
    ensures Fits(k, Tag(a)) && !k.ABool? ==> Member(k, OnWire(a)) == Some(Seen(a).value.1)
  {
  }

  /** What reader `k` makes of a list of arguments the sender added. */
  function Reading(k: Kind, args: seq<Arg>, at: nat): Result<Value> {
    if at < |args| && Seen(args[at]).Some? && Seen(args[at]).value.0 == k
    then Ok(Seen(args[at]).value.1) else Err(TypeException)
  }

  /** Every reader, at every index, in or out of range: the one that fits sees the value, all others throw TypeException. */
  lemma ReadersSee(path: string, args: seq<Arg>, k: Kind, at: nat)
    ensures As(k, ReceivedMessage(path, OnWireAll(args)), at) == Some(Reading(k, args, at))
  {
    var m := ReceivedMessage(path, OnWireAll(args));
    OnWireEach(args);
    if at < |args| {
      assert m.args[at] == OnWire(args[at]);
      assert TypeTag(m, at) == Tag(args[at]);
      ReaderFits(k, args[at]);
    }
  }

  // The tests that have no reader, or more than one

  predicate IsNil(m: ReceivedMessage, at: nat) {
    TypeTag(m, at) == 'N'
  }

  predicate IsInfinitum(m: ReceivedMessage, at: nat) {
    TypeTag(m, at) == 'I'
  }

  predicate IsBlob(m: ReceivedMessage, at: nat) {
    TypeTag(m, at) == 'b'
  }

  predicate IsInt(m: ReceivedMessage, at: nat) {
    TypeTag(m, at) == 'i' || TypeTag(m, at) == 'h'
  }

  predicate IsText(m: ReceivedMessage, at: nat) {
    TypeTag(m, at) == 's' || TypeTag(m, at) == 'S'
  }

  /** Every test tells the type of the argument added; out of range all are false. */
  ghost predicate Told(args: seq<Arg>, m: ReceivedMessage, at: nat) {
    && (IsNil(m, at) <==> at < |args| && args[at].Nil?)
    && (IsInfinitum(m, at) <==> at < |args| && args[at].Infinitum?)
    && (IsBlob(m, at) <==> at < |args| && args[at].Blob?)
    && (IsInt(m, at) <==> at < |args| && (args[at].Int32? || args[at].Int64?))
    && (IsText(m, at) <==> at < |args| && (args[at].String? || args[at].Symbol?))
    && (forall k: Kind :: Is(k, m, at) <==> at < |args| && HasKind(k, args[at]))
  }

  predicate HasKind(k: Kind, a: Arg) {
    match k
    case ABool => a.Bool?
    case AChar => a.Char?
    case AnInt32 => a.Int32?
    case AnInt64 => a.Int64?
    case AFloat => a.Float?
    case ADouble => a.Double?
    case AString => a.String?
    case ASymbol => a.Symbol?
    case AMidi => a.Midi?
    case ATime => a.Time?
  }

  lemma TagTells(a: Arg)
    ensures Tag(a) == 'N' <==> a.Nil?
    ensures Tag(a) == 'I' <==> a.Infinitum?
    ensures Tag(a) == 'b' <==> a.Blob?
    ensures Tag(a) == 'i' || Tag(a) == 'h' <==> a.Int32? || a.Int64?
    ensures Tag(a) == 's' || Tag(a) == 'S' <==> a.String? || a.Symbol?
    ensures Tag(a) != '*' && (OnWire(a).Blob? <==> a.Blob?)
  {
  }

  lemma KindTells(k: Kind, a: Arg)
    ensures Fits(k, Tag(a)) <==> HasKind(k, a)
  {
  }

  lemma TagOnWire(path: string, args: seq<Arg>, at: nat)
    ensures TypeTag(ReceivedMessage(path, OnWireAll(args)), at) == if at < |args| then Tag(args[at]) else '*'
  {
    OnWireEach(args);
  }

  lemma TestsTell(path: string, args: seq<Arg>, at: nat)
    ensures Told(args, ReceivedMessage(path, OnWireAll(args)), at)
  {
    TagOnWire(path, args, at);
    if at < |args| {
      TagTells(args[at]);
      forall k: Kind ensures Fits(k, Tag(args[at])) <==> HasKind(k, args[at]) { KindTells(k, args[at]); }
    }
  }

  lemma FitBack(path: string, args: seq<Arg>, at: nat, k: Kind, v: Value)
    requires at < |args| && Seen(args[at]) == Some((k, v))
    ensures var m := ReceivedMessage(path, OnWireAll(args)); TypeTag(m, at) == Tag(args[at]) && As(k, m, at) == Some(Ok(v))
  {
    TagOnWire(path, args, at);
    ReadersSee(path, args, k, at);
  }

  /** Argument by argument: its tag, and what the reader of its type returns. First the numbers. */
  lemma NumbersBack(path: string, args: seq<Arg>, at: nat)
    requires at < |args|
    ensures var m := ReceivedMessage(path, OnWireAll(args));
            match args[at]
            case Bool(b) => TypeTag(m, at) == (if b then 'T' else 'F') && As(ABool, m, at) == Some(Ok(Truth(b)))
            case Char(c) => TypeTag(m, at) == 'c' && As(AChar, m, at) == Some(Ok(Code(c % 256)))
            case Int32(i) => TypeTag(m, at) == 'i' && As(AnInt32, m, at) == Some(Ok(Whole(i)))
            case Int64(h) => TypeTag(m, at) == 'h' && As(AnInt64, m, at) == Some(Ok(Whole(h)))
            case Float(f) => TypeTag(m, at) == 'f' && As(AFloat, m, at) == Some(Ok(Number(f)))
            case Double(d) => TypeTag(m, at) == 'd' && As(ADouble, m, at) == Some(Ok(Number(d)))
            case _ => true
  {
    match args[at]
    case Bool(b) => FitBack(path, args, at, ABool, Truth(b));
    case Char(c) => FitBack(path, args, at, AChar, Code(c % 256));
    case Int32(i) => FitBack(path, args, at, AnInt32, Whole(i));
    case Int64(h) => FitBack(path, args, at, AnInt64, Whole(h));
    case Float(f) => FitBack(path, args, at, AFloat, Number(f));
    case Double(d) => FitBack(path, args, at, ADouble, Number(d));
    case _ =>
  }

  /** Then texts and structures: strings up to the first NUL, MIDI bytes reversed. */
  lemma TextsBack(path: string, args: seq<Arg>, at: nat)
    requires at < |args|
    ensures var m := ReceivedMessage(path, OnWireAll(args));
            match args[at]
            case String(s) => TypeTag(m, at) == 's' && As(AString, m, at) == Some(Ok(Text(CStr(s))))
            case Symbol(s) => TypeTag(m, at) == 'S' && As(ASymbol, m, at) == Some(Ok(Text(CStr(s))))
            case Midi(b0, b1, b2, b3) => TypeTag(m, at) == 'm' && As(AMidi, m, at) == Some(Ok(Bytes([b3, b2, b1, b0])))
            case Time(t) => TypeTag(m, at) == 't' && As(ATime, m, at) == Some(Ok(When(t)))
            case _ => true
  {
    match args[at]
    case String(s) => FitBack(path, args, at, AString, Text(CStr(s)));
    case Symbol(s) => FitBack(path, args, at, ASymbol, Text(CStr(s)));
    case Midi(b0, b1, b2, b3) => FitBack(path, args, at, AMidi, Bytes([b3, b2, b1, b0]));
    case Time(t) => FitBack(path, args, at, ATime, When(t));
    case _ =>
  }

  /** `asBlob` fetches the argument without looking at its tag; `None` is reading another argument as a blob. */
  function AsBlob(m: ReceivedMessage, at: nat): Option<Result<seq<Byte>>> {
    match RawArg(m, at)
    case Err(e) => Some(Err(e))
    case Ok(a) => if a.Blob? then Some(Ok(a.data)) else None
  }

  /** So it is defined exactly out of range, where it throws, and where `isBlob` holds. */
  lemma BlobUnchecked(path: string, args: seq<Arg>, at: nat)
    ensures var m := ReceivedMessage(path, OnWireAll(args));
            && (AsBlob(m, at).Some? <==> at >= |args| || IsBlob(m, at))
            && (AsBlob(m, at) == Some(Err(ArgException)) <==> at >= |args|)
            && (at < |args| && args[at].Blob? ==> AsBlob(m, at) == Some(Ok(args[at].data)))
  {
    OnWireEach(args);
    TagOnWire(path, args, at);
    if at < |args| {
      TagTells(args[at]);
    }
  }

  /** The message of the test program that has an argument of every type, with the type string its receiver expects. */
  lemma AllTypes(c: Int8, i: Int32, h: Int64, f: real, d: real, s: string, name: string, m: seq<Byte>, t: TimeTag, data: seq<Byte>)
    requires |m| == 4
    ensures Types([Bool(true), Bool(false), Char(c), Nil, Infinitum, Int32(i), Int64(h), Float(f), Double(d),
                   String(s), Symbol(name), Midi(m[0], m[1], m[2], m[3]), Time(t), Blob(data)]) == "TFcNIihfdsSmtb"
  {
  }

  /** `got` is `was`, with its tags in order: the check accepts exactly its address and tags, and all readers see its values. */
  ghost predicate Readable(was: ReceivedMessage, got: ReceivedMessage) {
    && (forall at: nat :: Told(was.args, got, at))
    && Types(got.args) == Types(was.args)
    && (forall a, y :: CheckAddressAndTypes(got, a, y) <==> a == CStr(was.address) && y == Types(was.args))
    && (forall k: Kind, at: nat :: As(k, got, at) == Some(Reading(k, was.args, at)))
  }

  lemma MessageReadable(path: string, args: seq<Arg>)
    ensures Readable(ReceivedMessage(path, args), ReceivedMessage(CStr(path), OnWireAll(args)))
  {
    OnWireEach(args);
    assert Types(OnWireAll(args)) == Types(args);
    forall k: Kind, at: nat
      ensures As(k, ReceivedMessage(CStr(path), OnWireAll(args)), at) == Some(Reading(k, args, at))
    {
      ReadersSee(CStr(path), args, k, at);
    }
    forall at: nat ensures Told(args, ReceivedMessage(CStr(path), OnWireAll(args)), at) {
      TestsTell(CStr(path), args, at);
    }
  }

  ghost predicate AllReadable(was: seq<ReceivedMessage>, got: seq<ReceivedMessage>) {
    |got| == |was| && forall i :: 0 <= i < |was| ==> Readable(was[i], got[i])
  }

  lemma {:induction false} WireReadable(p: Packet)
    ensures AllReadable(Deliveries(p), Deliveries(Wire(p)))
    decreases p, 1
  {
    match p
    case Message(path, args) => MessageReadable(path, args);
    case Bundle(_, elems) => WireAllReadable(elems);
  }

  lemma {:induction false} WireAllReadable(ps: seq<Packet>)
    ensures AllReadable(DeliveriesAll(ps), DeliveriesAll(WireAll(ps)))
    decreases ps, 0
  {
    if ps != [] {
      WireReadable(ps[0]);
      WireAllReadable(ps[1..]);
      assert WireAll(ps)[0] == Wire(ps[0]) && WireAll(ps)[1..] == WireAll(ps[1..]);
    }
  }

  /**
   End to end: of every packet written on an idle sender and sent, every message, at any depth, arrives readable: its
   tags in order, the address and type check accepting exactly them, and every reader seeing what `Reading` says.
   */
  lemma ArgumentRoundTrip(s: State, p: Packet)
    requires Idle(s) && s.address.Some?
    ensures var t := Feed(s, Linear(p) + [Send]);
            && t.Some? && |t.value.sent| == |s.sent| + 1
            && AllReadable(Deliveries(p), Deliveries(t.value.sent[|s.sent|].packet))
  {
    RoundTrip(s, p);
    WireReadable(p);
  }

  // Lenient access: the `try*` family writes through a pointer

  class Dest<T> {
    var value: T

    constructor (value: T)
      ensures this.value == value
    {
      this.value := value;
    }
  }

  /** Conversion to a two's complement integer of 8 or 32 bits. */
  function Wrap(v: int, width: int): (r: int)
    requires width in {0x100, TWO_32}
    ensures -width / 2 <= r < width / 2
  {
    (v + width / 2) % width - width / 2
  }

  /** Conversion to an unsigned integer of 32 bits. */
  function Unsigned(v: int): Word {
    v % TWO_32
  }

  /** Both conversions are the one value of the destination that agrees with the source modulo its width. */
  lemma WrapUnique(v: int, width: int, r: int)
    requires width in {0x100, TWO_32} && -width / 2 <= r < width / 2
    ensures r == Wrap(v, width) <==> (v - r) % width == 0
  {
  }

  lemma UnsignedUnique(v: int, r: Word)
    ensures r == Unsigned(v) <==> (v - r) % TWO_32 == 0
  {
  }

  lemma WrapKeeps(v: int, width: int)
    requires width in {0x100, TWO_32} && -width / 2 <= v < width / 2
    ensures Wrap(v, width) == v && Wrap(v % width, width) == v
  {
  }

  /** Conversion of a number to an integer drops the fraction. */
  function Truncate(r: real): int {
    if r >= 0.0 then r.Floor else -((-r).Floor)
  }

  /** No integer between `v` and `r`, and `v` is not farther from zero. */
  predicate NextTowardsZero(r: real, v: int) {
    if r >= 0.0 then v as real <= r < (v + 1) as real else (v - 1) as real < r <= v as real
  }

  lemma TruncateTowardsZero(r: real, v: int)
    ensures v == Truncate(r) <==> NextTowardsZero(r, v)
  {
  }

  /** The tags the lenient number readers accept. */
  predicate NumberAt(m: ReceivedMessage, at: nat) {
    at < |m.args| && (m.args[at].Bool? || m.args[at].Int32? || m.args[at].Int64? || m.args[at].Float? || m.args[at].Double?)
  }

  /** The integer such an argument stands for: booleans count as 0 and 1, fractions are dropped. */
  function WholeAt(m: ReceivedMessage, at: nat): int
    requires NumberAt(m, at)
  {
    match m.args[at]
    case Bool(b) => if b then 1 else 0
    case Int32(i) => i
    case Int64(h) => h
    case Float(f) => Truncate(f)
    case Double(d) => Truncate(d)
  }

  /** Fails on out-of-range indices and other tags, without touching the destination; never throws. */
  method TryBool(m: ReceivedMessage, dest: Dest<bool>, at: nat) returns (ok: bool)
    modifies dest
    ensures ok <==> at < |m.args| &&
                     (m.args[at].Bool? || m.args[at].Int32? || m.args[at].Int64? || m.args[at].Float? || m.args[at].Double?)
    ensures ok ==> (dest.value <==> m.args[at] !in {Bool(false), Int32(0), Int64(0), Float(0.0), Double(0.0)})
    ensures !ok ==> dest.value == old(dest.value)
  {
    if Is(ABool, m, at) {
      dest.value := As(ABool, m, at).value.value.b;
      return true;
    } else if Is(AnInt32, m, at) {
      dest.value := As(AnInt32, m, at).value.value.v != 0;
      return true;
    } else if Is(AnInt64, m, at) {
      dest.value := As(AnInt64, m, at).value.value.v != 0;
      return true;
    } else if Is(AFloat, m, at) {
      dest.value := As(AFloat, m, at).value.value.r != 0.0;
      return true;
    } else if Is(ADouble, m, at) {
      dest.value := As(ADouble, m, at).value.value.r != 0.0;
      return true;
    }
    return false;
  }

  /** Characters and integers, modulo 256. */
  method TryChar(m: ReceivedMessage, dest: Dest<Int8>, at: nat) returns (ok: bool)
    modifies dest
    ensures ok <==> at < |m.args| && (m.args[at].Char? || m.args[at].Int32? || m.args[at].Int64?)
    ensures dest.value == if !ok then old(dest.value)
                          else match m.args[at]
                               case Char(c) => c
                               case Int32(i) => Wrap(i, 0x100)
                               case Int64(h) => Wrap(h, 0x100)
                               case _ => 0
  {
    if Is(AChar, m, at) {
      WrapKeeps(m.args[at].c, 0x100);
      dest.value := Wrap(As(AChar, m, at).value.value.c, 0x100);
      return true;
    } else if Is(AnInt32, m, at) {
      dest.value := Wrap(As(AnInt32, m, at).value.value.v, 0x100);
      return true;
    } else if Is(AnInt64, m, at) {
      dest.value := Wrap(As(AnInt64, m, at).value.value.v, 0x100);
      return true;
    }
    return false;
  }

  /** Integers modulo 2^32. Converting a number outside the range of the destination is undefined. */
  method TryInt(m: ReceivedMessage, dest: Dest<Int32>, at: nat) returns (ok: bool)
    requires at < |m.args| && (m.args[at].Float? || m.args[at].Double?) ==>
               -0x8000_0000 <= WholeAt(m, at) < 0x8000_0000
    modifies dest
    ensures ok <==> at < |m.args| &&
                     (m.args[at].Bool? || m.args[at].Int32? || m.args[at].Int64? || m.args[at].Float? || m.args[at].Double?)
    ensures dest.value == if ok then Wrap(WholeAt(m, at), TWO_32) else old(dest.value)
    ensures ok ==> match m.args[at]
                   case Bool(b) => dest.value == if b then 1 else 0
                   case Int32(i) => dest.value == i
                   case Int64(h) => (h - dest.value) % TWO_32 == 0
                   case Float(f) => NextTowardsZero(f, dest.value)
                   case Double(d) => NextTowardsZero(d, dest.value)
                   case _ => true
  {
    if NumberAt(m, at) && !m.args[at].Int64? {
      WrapKeeps(WholeAt(m, at), TWO_32);
    }
    if Is(ABool, m, at) {
      dest.value := if As(ABool, m, at).value.value.b then 1 else 0;
      return true;
    } else if Is(AnInt32, m, at) {
      dest.value := As(AnInt32, m, at).value.value.v;
      return true;
    } else if Is(AnInt64, m, at) {
      dest.value := Wrap(As(AnInt64, m, at).value.value.v, TWO_32);
      return true;
    } else if Is(AFloat, m, at) {
      dest.value := Truncate(As(AFloat, m, at).value.value.r);
      return true;
    } else if Is(ADouble, m, at) {
      dest.value := Truncate(As(ADouble, m, at).value.value.r);
      return true;
    }
    return false;
  }

  /** Integers modulo 2^32. Converting a number outside the range of the destination is undefined. */
  method TryUnsigned(m: ReceivedMessage, dest: Dest<Word>, at: nat) returns (ok: bool)
    requires at < |m.args| && (m.args[at].Float? || m.args[at].Double?) ==>
               0 <= WholeAt(m, at) < TWO_32
    modifies dest
    ensures ok <==> at < |m.args| &&
                     (m.args[at].Bool? || m.args[at].Int32? || m.args[at].Int64? || m.args[at].Float? || m.args[at].Double?)
    ensures dest.value == if ok then Unsigned(WholeAt(m, at)) else old(dest.value)
    ensures ok ==> match m.args[at]
                   case Bool(b) => dest.value == if b then 1 else 0
                   case Int32(i) => (i - dest.value) % TWO_32 == 0
                   case Int64(h) => (h - dest.value) % TWO_32 == 0
                   case Float(f) => NextTowardsZero(f, dest.value)
                   case Double(d) => NextTowardsZero(d, dest.value)
                   case _ => true
  {
    if Is(ABool, m, at) {
      dest.value := if As(ABool, m, at).value.value.b then 1 else 0;
      return true;
    } else if Is(AnInt32, m, at) {
      dest.value := Unsigned(As(AnInt32, m, at).value.value.v);
      return true;
    } else if Is(AnInt64, m, at) {
      dest.value := Unsigned(As(AnInt64, m, at).value.value.v);
      return true;
    } else if Is(AFloat, m, at) {
      dest.value := Truncate(As(AFloat, m, at).value.value.r);
      return true;
    } else if Is(ADouble, m, at) {
      dest.value := Truncate(As(ADouble, m, at).value.value.r);
      return true;
    }
    return false;
  }

  /** Strings and symbols. */
  method TryString(m: ReceivedMessage, dest: Dest<string>, at: nat) returns (ok: bool)
    modifies dest
    ensures ok <==> at < |m.args| && (m.args[at].String? || m.args[at].Symbol?)
    ensures dest.value == if !ok then old(dest.value)
                          else if m.args[at].String? then m.args[at].s else m.args[at].name
  {
    if Is(AString, m, at) {
      dest.value := As(AString, m, at).value.value.s;
      return true;
    } else if Is(ASymbol, m, at) {
      dest.value := As(ASymbol, m, at).value.value.s;
      return true;
    }
    return false;
  }
}
