/** The serialiser of include/remy/serde.hpp: one printer and one parser for a recursive universe of types. */
module Serde {
  import opened Wire

  /** The types that can be sent. A plain struct is a block of `size` bytes, copied as it lies in memory. */
  datatype Ty =
    | U8T
    | U64T
    | PodT(size: nat)
    | StrT
    | PairT(first: Ty, second: Ty)
    | VecT(elem: Ty)
    | OptT(elem: Ty)

  /** The size of `FileMetainfo`. */
  const METAINFO_SIZE := 56

  datatype Val =
    | U8(b: byte)
    | U64(n: u64)
    | Pod(block: bytes)
    | Str(text: bytes)
    | Pair(first: Val, second: Val)
    | Vec(items: seq<Val>)
    | Nothing
    | Just(it: Val)

  /** Sizes are sent as 64-bit words, so containers hold fewer than 2^64 elements. */
  predicate HasType(v: Val, t: Ty)
    decreases t
  {
    match t
    case U8T => v.U8?
    case U64T => v.U64?
    case PodT(size) => v.Pod? && |v.block| == size
    case StrT => v.Str? && |v.text| < U64_LIMIT
    case PairT(a, b) => v.Pair? && HasType(v.first, a) && HasType(v.second, b)
    case VecT(e) => v.Vec? && |v.items| < U64_LIMIT && forall x | x in v.items :: HasType(x, e)
    case OptT(e) => v.Nothing? || (v.Just? && HasType(v.it, e))
  }

  function Encode(v: Val): bytes
    decreases v, 1
  {
    match v
    case U8(b) => [b]
    case U64(n) => Word(n)
    case Pod(block) => block
    case Str(text) => Size(|text|) + text
    case Pair(a, b) => Encode(a) + Encode(b)
    case Vec(items) => Size(|items|) + EncodeAll(items)
    case Nothing => [0]
    case Just(it) => [1] + Encode(it)
  }

  function EncodeAll(items: seq<Val>): bytes
    decreases items, 0
  {
    if items == [] then [] else Encode(items[0]) + EncodeAll(items[1..])
  }

  /** A value read from the front of a stream, and what is left of the stream. */
  datatype Parsed<+T> = Parsed(value: T, rest: bytes)

  function TakeWord(s: bytes): Option<Parsed<u64>> {
    if |s| < 8 then None else Some(Parsed(FromWord(s[..8]), s[8..]))
  }

  function TakeBlock(n: nat, s: bytes): Option<Parsed<bytes>> {
    if |s| < n then None else Some(Parsed(s[..n], s[n..]))
  }

  function TakeText(s: bytes): Option<Parsed<bytes>> {
    var p :- TakeWord(s);
    TakeBlock(p.value, p.rest)
  }

  /** Reading a value; `None` when the stream ends inside it. */
  function Decode(t: Ty, s: bytes): (r: Option<Parsed<Val>>)
    ensures r.Some? ==> |r.value.rest| <= |s|
    decreases t, 0
  {
    match t
    case U8T =>
      if s == [] then None else Some(Parsed(U8(s[0]), s[1..]))
    case U64T =>
      var p :- TakeWord(s);
      Some(Parsed(U64(p.value), p.rest))
    case PodT(size) =>
      var p :- TakeBlock(size, s);
      Some(Parsed(Pod(p.value), p.rest))
    case StrT =>
      var p :- TakeText(s);
      Some(Parsed(Str(p.value), p.rest))
    case PairT(a, b) =>
      var p :- Decode(a, s);
      var q :- Decode(b, p.rest);
      Some(Parsed(Pair(p.value, q.value), q.rest))
    case VecT(e) =>
      var p :- TakeWord(s);
      var q :- DecodeN(e, p.value, p.rest);
      Some(Parsed(Vec(q.value), q.rest))
    case OptT(e) =>
      if s == [] then None
      else if s[0] == 0 then Some(Parsed(Nothing, s[1..]))
      else
        var p :- Decode(e, s[1..]);
        Some(Parsed(Just(p.value), p.rest))
  }

  function DecodeN(t: Ty, n: nat, s: bytes): (r: Option<Parsed<seq<Val>>>)
    ensures r.Some? ==> |r.value.rest| <= |s|
    decreases t, n
  {
    if n == 0 then Some(Parsed([], s))
    else
      var p :- Decode(t, s);
      var q :- DecodeN(t, n - 1, p.rest);
      Some(Parsed([p.value] + q.value, q.rest))
  }

  // ---- Round trip ----

  /** Whatever follows on the stream, a value that was sent is received, and exactly its bytes are taken. */
  lemma {:induction false} RoundTrip(v: Val, t: Ty, r: bytes)
    requires HasType(v, t)
    ensures Decode(t, Encode(v) + r) == Some(Parsed(v, r))
    decreases t, 0
  {
    var s := Encode(v) + r;
    match t
    case U8T =>
    case U64T => WordThenRest(v.n, r);
    case PodT(size) =>
      assert s[..size] == v.block && s[size..] == r;
    case StrT => TextThenRest(v.text, r);
    case PairT(a, b) =>
      assert s == Encode(v.first) + (Encode(v.second) + r);
      RoundTrip(v.first, a, Encode(v.second) + r);
      RoundTrip(v.second, b, r);
    case VecT(e) =>
      WordThenRest(|v.items|, EncodeAll(v.items) + r);
      assert s == Word(|v.items|) + (EncodeAll(v.items) + r);
      RoundTripAll(v.items, e, r);
    case OptT(e) =>
      if v.Just? {
        assert s[1..] == Encode(v.it) + r;
        RoundTrip(v.it, e, r);
      }
  }

  lemma {:induction false} RoundTripAll(items: seq<Val>, t: Ty, r: bytes)
    requires forall x | x in items :: HasType(x, t)
    ensures DecodeN(t, |items|, EncodeAll(items) + r) == Some(Parsed(items, r))
    decreases t, |items|
  {
    if items != [] {
      assert EncodeAll(items) + r == Encode(items[0]) + (EncodeAll(items[1..]) + r);
      RoundTrip(items[0], t, EncodeAll(items[1..]) + r);
      RoundTripAll(items[1..], t, r);
      assert items == [items[0]] + items[1..];
    } else {
      assert EncodeAll(items) + r == r;
    }
  }

  lemma WordThenRest(n: u64, r: bytes)
    ensures TakeWord(Word(n) + r) == Some(Parsed(n, r))
  {
    WordReadsBack(n);
    assert (Word(n) + r)[..8] == Word(n) && (Word(n) + r)[8..] == r;
  }

  lemma TextThenRest(text: bytes, r: bytes)
    requires |text| < U64_LIMIT
    ensures TakeText(Size(|text|) + text + r) == Some(Parsed(text, r))
  {
    WordThenRest(|text|, text + r);
    assert Word(|text|) + text + r == Word(|text|) + (text + r);
    assert (text + r)[..|text|] == text && (text + r)[|text|..] == r;
  }

  /** No encoding is a proper prefix of another one of the same type, and a stream has one reading. */
  lemma PrefixFree(v: Val, w: Val, t: Ty, r: bytes, q: bytes)
    requires HasType(v, t) && HasType(w, t)
    requires Encode(v) + r == Encode(w) + q
    ensures v == w && r == q
  {
    RoundTrip(v, t, r);
    RoundTrip(w, t, q);
  }

  // ---- Reading consumes a piece of the stream ----

  /** Later bytes do not change what is read now. */
  lemma {:induction false} DecodeExtends(t: Ty, s: bytes, more: bytes)
    requires Decode(t, s).Some?
    ensures Decode(t, s + more) == Some(Parsed(Decode(t, s).value.value, Decode(t, s).value.rest + more))
    decreases t, 0
  {
    match t
    case U8T => assert (s + more)[1..] == s[1..] + more;
    case U64T => TakeExtends(8, s, more);
    case PodT(size) => TakeExtends(size, s, more);
    case StrT =>
      TakeExtends(8, s, more);
      TakeExtends(FromWord(s[..8]), s[8..], more);
    case PairT(a, b) =>
      DecodeExtends(a, s, more);
      DecodeExtends(b, Decode(a, s).value.rest, more);
    case VecT(e) =>
      TakeExtends(8, s, more);
      DecodeNExtends(e, FromWord(s[..8]), s[8..], more);
    case OptT(e) =>
      assert (s + more)[1..] == s[1..] + more;
      if s[0] != 0 {
        DecodeExtends(e, s[1..], more);
      }
  }

  lemma {:induction false} DecodeNExtends(t: Ty, n: nat, s: bytes, more: bytes)
    requires DecodeN(t, n, s).Some?
    ensures DecodeN(t, n, s + more) == Some(Parsed(DecodeN(t, n, s).value.value, DecodeN(t, n, s).value.rest + more))
    decreases t, n
  {
    if n > 0 {
      DecodeExtends(t, s, more);
      DecodeNExtends(t, n - 1, Decode(t, s).value.rest, more);
    }
  }

  lemma TakeExtends(n: nat, s: bytes, more: bytes)
    requires n <= |s|
    ensures (s + more)[..n] == s[..n] && (s + more)[n..] == s[n..] + more
  {
  }

  /** A value cut short anywhere is not received at all. */
  lemma CutValueIsNotRead(v: Val, t: Ty, n: nat)
    requires HasType(v, t) && n < |Encode(v)|
    ensures Decode(t, Encode(v)[..n]) == None
  {
    var s := Encode(v);
    if Decode(t, s[..n]).Some? {
      var r := s[n..];
      assert s[..n] + r == s && s + [] == s;
      DecodeExtends(t, s[..n], r);
      assert |Decode(t, s).value.rest| >= |r| > 0;
      RoundTrip(v, t, []);
    }
  }

  // ---- Printing what was parsed ----

  /** Every flag byte of an optional met while reading a `t` from `s` is 0 or 1. */
  predicate FlagsOk(t: Ty, s: bytes)
    decreases t, 0
  {
    match t
    case PairT(a, b) => FlagsOk(a, s) && (Decode(a, s).Some? ==> FlagsOk(b, Decode(a, s).value.rest))
    case VecT(e) => |s| < 8 || FlagsOkN(e, FromWord(s[..8]), s[8..])
    case OptT(e) => s == [] || s[0] == 0 || (s[0] == 1 && FlagsOk(e, s[1..]))
    case _ => true
  }

  predicate FlagsOkN(t: Ty, n: nat, s: bytes)
    decreases t, n
  {
    n == 0 || (FlagsOk(t, s) && (Decode(t, s).Some? ==> FlagsOkN(t, n - 1, Decode(t, s).value.rest)))
  }

  /** `enc` is as long as the piece of `s` in front of `rest`; it is that piece exactly when `same`. */
  ghost predicate Reprints(enc: bytes, rest: bytes, s: bytes, same: bool) {
    && |enc| <= |s|
    && rest == s[|enc|..]
    && (enc == s[..|enc|] <==> same)
  }

  /** What is read from `s` as a value of type `t` has this type, and sending it again has the length of the piece it was
      read from. The bytes are those of the piece if and only if the flags of optionals in it were 0 or 1. */
  ghost predicate IsPrintedBack(t: Ty, s: bytes)
    requires Decode(t, s).Some?
  {
    var p := Decode(t, s).value;
    HasType(p.value, t) && Reprints(Encode(p.value), p.rest, s, FlagsOk(t, s))
  }

  /** So it is for every received value: any flag other than 0 and 1 comes out as 1, and nothing else changes. */
  lemma {:induction false} ParseThenPrint(t: Ty, s: bytes)
    requires Decode(t, s).Some?
    ensures IsPrintedBack(t, s)
    decreases t, 0
  {
    match t
    case PairT(a, b) =>
      ParseThenPrint(a, s);
      ParseThenPrint(b, Decode(a, s).value.rest);
      PrintedPair(a, b, s);
    case VecT(e) =>
      ParseThenPrintAll(e, FromWord(s[..8]), s[8..]);
      PrintedVector(e, s);
    case OptT(e) =>
      if s[0] != 0 {
        ParseThenPrint(e, s[1..]);
      }
      PrintedOptional(e, s);
    case _ => PrintedPlain(t, s);
  }

  lemma PrintedPlain(t: Ty, s: bytes)
    requires Decode(t, s).Some? && !t.PairT? && !t.VecT? && !t.OptT?
    ensures IsPrintedBack(t, s)
  {
    if t.StrT? {
      PrintedText(s);
    }
  }

  lemma PrintedText(s: bytes)
    requires TakeText(s).Some?
    ensures var p := TakeText(s).value;
      |p.value| < U64_LIMIT && Reprints(Size(|p.value|) + p.value, p.rest, s, true)
  {
    var p := TakeText(s).value;
    assert Size(|p.value|) == s[..8];
    PrintConcat(s[..8], s[8..], s, true, p.value, p.rest, true);
  }

  lemma PrintedPair(a: Ty, b: Ty, s: bytes)
    requires Decode(PairT(a, b), s).Some?
    requires IsPrintedBack(a, s) && IsPrintedBack(b, Decode(a, s).value.rest)
    ensures IsPrintedBack(PairT(a, b), s)
  {
    var p := Decode(a, s).value;
    var q := Decode(b, p.rest).value;
    PrintConcat(Encode(p.value), p.rest, s, FlagsOk(a, s), Encode(q.value), q.rest, FlagsOk(b, p.rest));
  }

  lemma PrintedVector(e: Ty, s: bytes)
    requires Decode(VecT(e), s).Some?
    requires AllPrintedBack(e, FromWord(s[..8]), s[8..])
    ensures IsPrintedBack(VecT(e), s)
  {
    var n := FromWord(s[..8]);
    var q := DecodeN(e, n, s[8..]).value;
    assert Encode(Vec(q.value)) == s[..8] + EncodeAll(q.value);
    PrintConcat(s[..8], s[8..], s, true, EncodeAll(q.value), q.rest, FlagsOkN(e, n, s[8..]));
  }

  lemma PrintedOptional(e: Ty, s: bytes)
    requires Decode(OptT(e), s).Some?
    requires s[0] != 0 ==> IsPrintedBack(e, s[1..])
    ensures IsPrintedBack(OptT(e), s)
  {
    if s[0] != 0 {
      var p := Decode(e, s[1..]).value;
      PrintedJust(e, s, p.value, p.rest);
    }
  }

  /** Whatever flag was read for a value that is there, it is printed as 1. */
  lemma PrintedJust(e: Ty, s: bytes, v: Val, rest: bytes)
    requires s != [] && s[0] != 0 && Reprints(Encode(v), rest, s[1..], FlagsOk(e, s[1..]))
    ensures Reprints(Encode(Just(v)), rest, s, FlagsOk(OptT(e), s))
  {
    assert s[..1] == [s[0]];
    assert Reprints([1], s[1..], s, s[0] == 1);
    assert Encode(Just(v)) == [1] + Encode(v);
    assert FlagsOk(OptT(e), s) <==> s[0] == 1 && FlagsOk(e, s[1..]);
    PrintConcat([1], s[1..], s, s[0] == 1, Encode(v), rest, FlagsOk(e, s[1..]));
  }

  ghost predicate AllPrintedBack(t: Ty, n: nat, s: bytes)
    requires DecodeN(t, n, s).Some?
  {
    var q := DecodeN(t, n, s).value;
    && |q.value| == n && (forall x | x in q.value :: HasType(x, t))
    && Reprints(EncodeAll(q.value), q.rest, s, FlagsOkN(t, n, s))
  }

  lemma {:induction false} ParseThenPrintAll(t: Ty, n: nat, s: bytes)
    requires DecodeN(t, n, s).Some?
    ensures AllPrintedBack(t, n, s)
    decreases t, n
  {
    if n > 0 {
      var more: nat := n - 1;
      ParseThenPrint(t, s);
      ParseThenPrintAll(t, more, Decode(t, s).value.rest);
      PrintedOneMore(t, n, more, s);
    }
  }

  lemma PrintedOneMore(t: Ty, n: nat, more: nat, s: bytes)
    requires n == more + 1 && DecodeN(t, n, s).Some?
    requires IsPrintedBack(t, s) && AllPrintedBack(t, more, Decode(t, s).value.rest)
    ensures AllPrintedBack(t, n, s)
  {
    var p := Decode(t, s).value;
    var q := DecodeN(t, more, p.rest).value;
    PrintConcat(Encode(p.value), p.rest, s, FlagsOk(t, s), EncodeAll(q.value), q.rest, FlagsOkN(t, more, p.rest));
    OneMoreValue(p.value, q.value, t);
  }

  lemma OneMoreValue(v: Val, vs: seq<Val>, t: Ty)
    requires HasType(v, t) && forall x | x in vs :: HasType(x, t)
    ensures EncodeAll([v] + vs) == Encode(v) + EncodeAll(vs)
    ensures forall x | x in [v] + vs :: HasType(x, t)
  {
    assert ([v] + vs)[1..] == vs;
  }

  lemma PrintConcat(a: bytes, mid: bytes, s: bytes, sameA: bool, b: bytes, rest: bytes, sameB: bool)
    requires Reprints(a, mid, s, sameA) && Reprints(b, rest, mid, sameB)
    ensures Reprints(a + b, rest, s, sameA && sameB)
  {
    var k := |a|;
    assert s[..|a + b|] == s[..k] + mid[..|b|];
    if a + b == s[..|a + b|] {
      assert a == (a + b)[..k] == s[..k];
      assert b == (a + b)[k..] == mid[..|b|];
    }
  }

  /** A type without optionals is always printed back byte for byte: what the relay of messages relies on. */
  predicate FlagFree(t: Ty) {
    match t
    case PairT(a, b) => FlagFree(a) && FlagFree(b)
    case VecT(e) => FlagFree(e)
    case OptT(_) => false
    case _ => true
  }

  lemma {:induction false} FlagFreeIsOk(t: Ty, s: bytes)
    requires FlagFree(t)
    ensures FlagsOk(t, s)
    decreases t, 0
  {
    match t
    case PairT(a, b) =>
      FlagFreeIsOk(a, s);
      if Decode(a, s).Some? {
        FlagFreeIsOk(b, Decode(a, s).value.rest);
      }
    case VecT(e) =>
      if |s| >= 8 {
        FlagFreeIsOkN(e, FromWord(s[..8]), s[8..]);
      }
    case _ =>
  }

  lemma {:induction false} FlagFreeIsOkN(t: Ty, n: nat, s: bytes)
    requires FlagFree(t)
    ensures FlagsOkN(t, n, s)
    decreases t, n
  {
    if n > 0 {
      FlagFreeIsOk(t, s);
      if Decode(t, s).Some? {
        FlagFreeIsOkN(t, n - 1, Decode(t, s).value.rest);
      }
    }
  }
}
