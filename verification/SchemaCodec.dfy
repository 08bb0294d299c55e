/** The codec the protocol macro generates for an enum of packets: each variant is a list of fields,
    written one after the other behind a five-byte header. */
module SchemaCodec {
  import opened Common
  import opened BigEndian

  const PROTOCOL_HEADER_SIZE := 5

  /** Integers and identifiers have a fixed width; byte vectors and strings are variable. */
  datatype Field = Fixed(width: nat) | Var
  datatype Value = Num(n: nat) | Bytes(bytes: seq<byte>)

  ghost predicate Schema(fields: seq<Field>) {
    forall f :: f in fields && f.Fixed? ==> f.width >= 1
  }

  predicate Matches(f: Field, v: Value) {
    match f
    case Fixed(w) => v.Num? && v.n < Pow256(w)
    case Var => v.Bytes?
  }

  ghost predicate Typed(fields: seq<Field>, values: seq<Value>) {
    |fields| == |values| && forall i :: 0 <= i < |fields| ==> Matches(fields[i], values[i])
  }

  // ---- encoding

  /** A trailing variable field is written without its length. */
  function EncodeField(f: Field, v: Value, last: bool): seq<byte>
    requires Matches(f, v)
  {
    match f
    case Fixed(w) => ToBE(v.n, w)
    case Var => if last then v.bytes else ToBE(|v.bytes|, 4) + v.bytes
  }

  function Body(fields: seq<Field>, values: seq<Value>): seq<byte>
    requires Typed(fields, values)
  {
    if fields == [] then []
    else EncodeField(fields[0], values[0], |fields| == 1) + Body(fields[1..], values[1..])
  }

  function Encoded(id: byte, fields: seq<Field>, values: seq<Value>): seq<byte>
    requires Typed(fields, values)
  {
    [id] + ToBE(|Body(fields, values)|, 4) + Body(fields, values)
  }

  lemma BodyCons(fields: seq<Field>, values: seq<Value>)
    requires fields != [] && values != []
    ensures Typed(fields, values) <==> Matches(fields[0], values[0]) && Typed(fields[1..], values[1..])
    ensures Typed(fields, values) ==>
              Body(fields, values) == EncodeField(fields[0], values[0], |fields| == 1) + Body(fields[1..], values[1..])
  {
    hide Matches, EncodeField;
    assert fields == [fields[0]] + fields[1..] && values == [values[0]] + values[1..];
  }

  method SerializePacket(id: byte, fields: seq<Field>, values: seq<Value>) returns (res: seq<byte>)
    requires Typed(fields, values)
    ensures res == Encoded(id, fields, values)
  {
    hide ToBE, Matches, Body, EncodeField, Typed;
    res := [id, 0, 0, 0, 0];
    ghost var head, body := res, Body(fields, values);
    assert fields[0..] == fields && values[0..] == values;
    var k := 0;
    TypedLength(fields, values);
    while k < |fields|
      invariant 0 <= k <= |fields| == |values| && Typed(fields[k..], values[k..])
      invariant PROTOCOL_HEADER_SIZE <= |res| && res + Body(fields[k..], values[k..]) == head + body
    {
      BodyCons(fields[k..], values[k..]);
      assert fields[k..][1..] == fields[k + 1..] && values[k..][1..] == values[k + 1..];
      var bytes := EncodeField(fields[k], values[k], k + 1 == |fields|);
      Regroup(res, bytes, Body(fields[k + 1..], values[k + 1..]));
      res := res + bytes;
      k := k + 1;
    }
    EmptyBody(fields[k..], values[k..]);
    assert res + [] == res;
    var length := ToBE(|res| - PROTOCOL_HEADER_SIZE, 4);
    res := res[1 := length[0]][2 := length[1]][3 := length[2]][4 := length[3]];
    assert res == [id] + length + body;
  }

  lemma TypedLength(fields: seq<Field>, values: seq<Value>)
    requires Typed(fields, values)
    ensures |fields| == |values|
  {
  }

  // ---- decoding

  datatype Step = Panic | Step(value: Value, i: nat, size: nat)

  /** One field at offset `i`, after a field of `size` bytes. `Panic` is a slice out of bounds. A trailing
      variable field is taken to be as long as the payload less the size of the field before it. */
  function DecodeField(f: Field, last: bool, payload: seq<byte>, i: nat, size: nat): Step {
    match f
    case Fixed(w) =>
      if i + w > |payload| then Panic else Step(Num(FromBE(payload[i..i + w])), i + w, w)
    case Var =>
      if last then
        if size > |payload| || i + (|payload| - size) > |payload| then Panic
        else Step(Bytes(payload[i..i + (|payload| - size)]), i + (|payload| - size), |payload| - size)
      else if i + 4 > |payload| then Panic
      else
        var n := FromBE(payload[i..i + 4]);
        if i + 4 + n > |payload| then Panic else Step(Bytes(payload[i + 4..i + 4 + n]), i + 4 + n, n)
  }

  function DecodeFrom(fields: seq<Field>, payload: seq<byte>, i: nat, size: nat): Option<seq<Value>> {
    if fields == [] then Some([])
    else
      match DecodeField(fields[0], |fields| == 1, payload, i, size)
      case Panic => None
      case Step(v, j, n) => Prepend([v], DecodeFrom(fields[1..], payload, j, n))
  }

  function Prepend(values: seq<Value>, rest: Option<seq<Value>>): Option<seq<Value>> {
    match rest
    case None => None
    case Some(vs) => Some(values + vs)
  }

  method ParsePayload(fields: seq<Field>, payload: seq<byte>) returns (r: Option<seq<Value>>)
    ensures r == DecodeFrom(fields, payload, 0, 0)
  {
    hide FromBE;
    var i: nat, size: nat, k := 0, 0, 0;
    var values: seq<Value> := [];
    assert fields[0..] == fields;
    PrependNone(DecodeFrom(fields, payload, 0, 0));
    while k < |fields|
      invariant 0 <= k <= |fields|
      invariant DecodeFrom(fields, payload, 0, 0) == Prepend(values, DecodeFrom(fields[k..], payload, i, size))
    {
      var v;
      ghost var step := DecodeField(fields[k], k + 1 == |fields|, payload, i, size);
      assert fields[k..][1..] == fields[k + 1..];
      if fields[k].Fixed? {
        size := fields[k].width;
        if i + size > |payload| { return None; }
        v := Num(FromBE(payload[i..i + size]));
        i := i + size;
      } else if k + 1 == |fields| {
        if size > |payload| { return None; }
        size := |payload| - size;
        if i + size > |payload| { return None; }
        v := Bytes(payload[i..i + size]);
        i := i + size;
      } else {
        if i + 4 > |payload| { return None; }
        size := FromBE(payload[i..i + 4]);
        i := i + 4;
        if i + size > |payload| { return None; }
        v := Bytes(payload[i..i + size]);
        i := i + size;
      }
      assert step == Step(v, i, size);
      PrependTwice(values, [v], DecodeFrom(fields[k + 1..], payload, i, size));
      values := values + [v];
      k := k + 1;
    }
    assert values + [] == values;
    return Some(values);
  }

  lemma DecodeCons(fields: seq<Field>, payload: seq<byte>, i: nat, size: nat)
    requires fields != []
    ensures var step := DecodeField(fields[0], |fields| == 1, payload, i, size);
            step.Step? ==>
              DecodeFrom(fields, payload, i, size) == Prepend([step.value], DecodeFrom(fields[1..], payload, step.i,
                  step.size))
  {
  }

  lemma PrependNone(rest: Option<seq<Value>>)
    ensures Prepend([], rest) == rest
  {
    assert rest.Some? ==> [] + rest.value == rest.value;
  }

  lemma PrependTwice(a: seq<Value>, b: seq<Value>, rest: Option<seq<Value>>)
    ensures Prepend(a, Prepend(b, rest)) == Prepend(a + b, rest)
  {
    assert rest.Some? ==> a + (b + rest.value) == a + b + rest.value;
  }

  // ---- length validation

  function MinLength(fields: seq<Field>): nat {
    if fields == [] then 0
    else MinLength(fields[1..]) +
         match fields[0]
         case Fixed(w) => w
         case Var => if |fields| == 1 then 0 else 4
  }

  ghost predicate HasVar(fields: seq<Field>) {
    Var in fields
  }

  ghost predicate ValidLength(fields: seq<Field>, length: nat) {
    if HasVar(fields) then length >= MinLength(fields) else length == MinLength(fields)
  }

  method ValidateLength(fields: seq<Field>, length: nat) returns (ok: bool)
    ensures ok == ValidLength(fields, length)
  {
    var isVar, packetSize, k := false, 0, 0;
    while k < |fields|
      invariant 0 <= k <= |fields|
      invariant isVar == (Var in fields[..k])
      invariant packetSize + MinLength(fields[k..]) == MinLength(fields)
    {
      assert fields[k..][1..] == fields[k + 1..];
      assert fields[..k + 1] == fields[..k] + [fields[k]];
      if fields[k].Fixed? {
        packetSize := packetSize + fields[k].width;
      } else {
        isVar := true;
        if k + 1 != |fields| { packetSize := packetSize + 4; }
      }
      k := k + 1;
    }
    assert fields[..k] == fields;
    return if isVar then length >= packetSize else length == packetSize;
  }

  /** Every encoded payload has a valid length. */
  lemma {:induction false} EncodedLengthIsValid(fields: seq<Field>, values: seq<Value>)
    requires Typed(fields, values)
    ensures ValidLength(fields, |Body(fields, values)|)
  {
    if fields != [] {
      EncodedLengthIsValid(fields[1..], values[1..]);
      assert fields == [fields[0]] + fields[1..];
    }
  }

  /** Zeros, and a first variable field of `extra` bytes. */
  function Filler(fields: seq<Field>, extra: nat): seq<Value> {
    if fields == [] then []
    else
      match fields[0]
      case Fixed(_) => [Num(0)] + Filler(fields[1..], extra)
      case Var => [Bytes(Zeros(extra))] + Filler(fields[1..], 0)
  }

  function Zeros(n: nat): (bytes: seq<byte>)
    ensures |bytes| == n
  {
    if n == 0 then [] else [0] + Zeros(n - 1)
  }

  lemma {:induction false} FillerFits(fields: seq<Field>, extra: nat)
    requires HasVar(fields) || extra == 0
    ensures Typed(fields, Filler(fields, extra))
    ensures |Body(fields, Filler(fields, extra))| == MinLength(fields) + extra
  {
    if fields != [] {
      hide ToBE, Pow256;
      assert fields == [fields[0]] + fields[1..];
      FillerFits(fields[1..], if fields[0].Fixed? then extra else 0);
      BodyCons(fields, Filler(fields, extra));
    }
  }

  /** The check lets through exactly the lengths that some packet of the variant has. */
  lemma ValidLengthIff(fields: seq<Field>, length: nat)
    ensures ValidLength(fields, length) <==>
            exists values :: Typed(fields, values) && |Body(fields, values)| == length
  {
    if ValidLength(fields, length) {
      var values := Filler(fields, length - MinLength(fields));
      FillerFits(fields, length - MinLength(fields));
      assert Typed(fields, values);
    }
    forall values | Typed(fields, values) ensures ValidLength(fields, |Body(fields, values)|) {
      EncodedLengthIsValid(fields, values);
    }
  }

  /** Without variable fields a payload of valid length never makes the decoder slice out of bounds,
      and the decoded fields encode to the payload. */
  lemma AllFixedIsTotal(fields: seq<Field>, payload: seq<byte>)
    requires !HasVar(fields)
    ensures DecodeFrom(fields, payload, 0, 0).Some? <==> |payload| >= MinLength(fields)
    ensures ValidLength(fields, |payload|) ==>
              DecodeFrom(fields, payload, 0, 0).Some? && Typed(fields, DecodeFrom(fields, payload, 0, 0).value) &&
              Body(fields, DecodeFrom(fields, payload, 0, 0).value) == payload
  {
    AllFixedDecodes(fields, payload, 0, 0);
    if ValidLength(fields, |payload|) {
      var values := DecodeFrom(fields, payload, 0, 0).value;
      DecodeInverts(fields, payload, 0, 0);
      EncodedLengthIsValid(fields, values);
    }
  }

  lemma {:induction false} AllFixedDecodes(fields: seq<Field>, payload: seq<byte>, i: nat, size: nat)
    requires !HasVar(fields) && i <= |payload|
    ensures DecodeFrom(fields, payload, i, size).Some? <==> i + MinLength(fields) <= |payload|
  {
    if fields != [] {
      assert fields[0] in fields;
      if i + fields[0].width <= |payload| {
        AllFixedDecodes(fields[1..], payload, i + fields[0].width, fields[0].width);
      }
    }
  }

  lemma FieldInverts(f: Field, last: bool, payload: seq<byte>, i: nat, size: nat)
    requires DecodeField(f, last, payload, i, size).Step? && i <= |payload|
    ensures var step := DecodeField(f, last, payload, i, size);
            && Matches(f, step.value)
            && i <= step.i <= |payload|
            && payload[i..step.i] == EncodeField(f, step.value, last)
  {
    hide ToBE, FromBE, Pow256;
    if f.Fixed? {
      ToFrom(payload[i..i + f.width]);
    } else if !last {
      ToFrom(payload[i..i + 4]);
      var j := DecodeField(f, last, payload, i, size).i;
      assert payload[i..i + 4] + payload[i + 4..j] == payload[i..j];
    }
  }

  lemma DecodeUncons(fields: seq<Field>, payload: seq<byte>, i: nat, size: nat)
    requires fields != [] && DecodeFrom(fields, payload, i, size).Some?
    ensures var step := DecodeField(fields[0], |fields| == 1, payload, i, size);
            && step.Step?
            && var rest := DecodeFrom(fields[1..], payload, step.i, step.size);
               var values := DecodeFrom(fields, payload, i, size).value;
               rest.Some? && values != [] && values[0] == step.value && values[1..] == rest.value
  {
    hide DecodeField;
  }

  lemma JoinSlices(s: seq<byte>, i: nat, j: nat, k: nat)
    requires i <= j <= k <= |s|
    ensures s[i..j] + s[j..k] == s[i..k]
  {
  }

  /** Whatever the decoder returns, its encoding stands at the front of what was decoded. */
  lemma {:induction false} DecodeInverts(fields: seq<Field>, payload: seq<byte>, i: nat, size: nat)
    requires DecodeFrom(fields, payload, i, size).Some? && i <= |payload|
    ensures var values := DecodeFrom(fields, payload, i, size).value;
            && Typed(fields, values)
            && i + |Body(fields, values)| <= |payload|
            && payload[i..i + |Body(fields, values)|] == Body(fields, values)
  {
    if fields != [] {
      hide DecodeFrom, DecodeField, EncodeField, Matches, Body, Typed;
      var values := DecodeFrom(fields, payload, i, size).value;
      var step := DecodeField(fields[0], |fields| == 1, payload, i, size);
      DecodeUncons(fields, payload, i, size);
      FieldInverts(fields[0], |fields| == 1, payload, i, size);
      DecodeInverts(fields[1..], payload, step.i, step.size);
      BodyCons(fields, values);
      JoinSlices(payload, i, step.i, step.i + |Body(fields[1..], values[1..])|);
    }
  }

  // ---- round trip

  /** There is no trailing variable field, or it comes first, or after a single fixed field. */
  predicate TrailingOk(fields: seq<Field>) {
    fields == [] || fields[|fields| - 1].Fixed? || |fields| == 1 || (|fields| == 2 && fields[0].Fixed?)
  }

  /** The same, with the decoder at offset `i` and `size` bytes in the field before. */
  predicate TrailSafe(fields: seq<Field>, i: nat, size: nat) {
    || fields == [] || fields[|fields| - 1].Fixed?
    || (|fields| == 1 && size == i)
    || (|fields| == 2 && fields[0].Fixed? && i == 0)
  }

  function SizeOf(f: Field, v: Value): nat {
    match f
    case Fixed(w) => w
    case Var => if v.Bytes? then |v.bytes| else 0
  }

  lemma DecodesFixed(f: Field, v: Value, last: bool, done: seq<byte>, rest: seq<byte>, size: nat)
    requires f.Fixed? && Matches(f, v)
    ensures DecodeField(f, last, done + ToBE(v.n, f.width) + rest, |done|, size) == Step(v, |done| + f.width, f.width)
  {
    hide ToBE, FromBE, Pow256;
    var payload := done + ToBE(v.n, f.width) + rest;
    assert payload[|done|..|done| + f.width] == ToBE(v.n, f.width);
    FromTo(v.n, f.width);
  }

  lemma DecodesVar(v: Value, done: seq<byte>, rest: seq<byte>, size: nat)
    requires v.Bytes? && |v.bytes| < U32
    ensures DecodeField(Var, false, done + (ToBE(|v.bytes|, 4) + v.bytes) + rest, |done|, size) ==
            Step(v, |done| + 4 + |v.bytes|, |v.bytes|)
  {
    hide ToBE, FromBE, Pow256;
    Widths();
    var payload, i := done + (ToBE(|v.bytes|, 4) + v.bytes) + rest, |done|;
    assert payload[i..i + 4] == ToBE(|v.bytes|, 4);
    assert payload[i + 4..i + 4 + |v.bytes|] == v.bytes;
    FromTo(|v.bytes|, 4);
  }

  lemma DecodesTrailer(v: Value, done: seq<byte>)
    requires v.Bytes?
    ensures DecodeField(Var, true, done + v.bytes + [], |done|, |done|) == Step(v, |done| + |v.bytes|, |v.bytes|)
  {
  }

  lemma DecodesField(f: Field, v: Value, last: bool, done: seq<byte>, rest: seq<byte>, size: nat)
    requires Matches(f, v) && |EncodeField(f, v, last)| < U32
    requires f.Var? && last ==> rest == [] && size == |done|
    ensures var first := EncodeField(f, v, last);
            DecodeField(f, last, done + first + rest, |done|, size) == Step(v, |done + first|, SizeOf(f, v))
            && (f.Fixed? ==> |first| == SizeOf(f, v))
  {
    hide DecodeField, ToBE, Pow256;
    if f.Fixed? {
      DecodesFixed(f, v, last, done, rest, size);
    } else if last {
      DecodesTrailer(v, done);
    } else {
      DecodesVar(v, done, rest, size);
    }
  }

  lemma {:induction false} DecodesBody(fields: seq<Field>, values: seq<Value>, done: seq<byte>, size: nat)
    requires Typed(fields, values) && |Body(fields, values)| < U32 && TrailSafe(fields, |done|, size)
    ensures DecodeFrom(fields, done + Body(fields, values), |done|, size) == Some(values)
  {
    if fields != [] {
      hide Body, Typed, Matches, TrailSafe, DecodeFrom, DecodeField, EncodeField, SizeOf;
      BodyCons(fields, values);
      var f, v := fields[0], values[0];
      var first, rest := EncodeField(f, v, |fields| == 1), Body(fields[1..], values[1..]);
      TrailNow(fields, |done|, size);
      if |fields| == 1 { EmptyBody(fields[1..], values[1..]); }
      Regroup(done, first, rest);
      DecodesField(f, v, |fields| == 1, done, rest, size);
      TrailStays(fields, |done|, size, SizeOf(f, v), |first|);
      DecodesBody(fields[1..], values[1..], done + first, SizeOf(f, v));
      DecodeCons(fields, done + first + rest, |done|, size);
      assert values == [v] + values[1..];
    }
  }

  lemma TrailNow(fields: seq<Field>, i: nat, size: nat)
    requires fields != [] && TrailSafe(fields, i, size)
    ensures fields[0].Var? && |fields| == 1 ==> size == i
  {
  }

  lemma Regroup(a: seq<byte>, b: seq<byte>, c: seq<byte>)
    ensures a + (b + c) == a + b + c
  {
  }

  lemma TrailStays(fields: seq<Field>, i: nat, size: nat, next: nat, length: nat)
    requires fields != [] && TrailSafe(fields, i, size)
    requires fields[0].Fixed? ==> length == next
    ensures TrailSafe(fields[1..], i + length, next)
  {
  }

  lemma EmptyBody(fields: seq<Field>, values: seq<Value>)
    requires Typed(fields, values) && fields == []
    ensures Body(fields, values) == []
  {
  }

  /** With a misplaced trailing variable field the decoder panics on every payload. */
  lemma {:induction false} MisplacedTrailerPanics(fields: seq<Field>, payload: seq<byte>, i: nat, size: nat)
    requires Schema(fields) && size <= i && !TrailSafe(fields, i, size)
    ensures DecodeFrom(fields, payload, i, size) == None
  {
    hide FromBE;
    if |fields| > 1 {
      assert fields[0] in fields && forall f :: f in fields[1..] ==> f in fields;
      if fields[0].Fixed? {
        MisplacedTrailerPanics(fields[1..], payload, i + fields[0].width, fields[0].width);
      } else if i + 4 <= |payload| {
        var n := FromBE(payload[i..i + 4]);
        MisplacedTrailerPanics(fields[1..], payload, i + 4 + n, n);
      }
    }
  }

  /** Reading one packet off the stream: header, known id, valid length, payload, fields. The ids of the
      variants count from one. */
  ghost function Dispatch(schemas: seq<seq<Field>>, input: seq<byte>): Option<(nat, seq<Value>)> {
    if |input| < PROTOCOL_HEADER_SIZE || !(1 <= input[0] <= |schemas|) then None
    else
      var fields, length := schemas[input[0] - 1], FromBE(input[1..5]);
      if !ValidLength(fields, length) || |input| < 5 + length then None
      else
        match DecodeFrom(fields, input[5..5 + length], 0, 0)
        case None => None
        case Some(values) => Some((input[0] - 1, values))
  }

  /** A packet of any variant is read back exactly when a trailing variable field is well placed and the
      payload length fits its 32-bit header field. */
  lemma DispatchRecoversIff(schemas: seq<seq<Field>>, variant: nat, values: seq<Value>, rest: seq<byte>)
    requires variant < |schemas| <= 255 && Schema(schemas[variant]) && Typed(schemas[variant], values)
    ensures Dispatch(schemas, Encoded(variant + 1, schemas[variant], values) + rest) == Some((variant, values))
       <==> TrailingOk(schemas[variant]) && |Body(schemas[variant], values)| < U32
  {
    hide ToBE, FromBE, Pow256, DecodeFrom, Body, ValidLength;
    var fields := schemas[variant];
    var body := Body(fields, values);
    var input := Encoded(variant + 1, fields, values) + rest;
    Widths();
    FromTo(|body|, 4);
    assert input[1..5] == ToBE(|body|, 4);
    var length := |body| % U32;
    var payload := input[5..5 + length];
    assert payload == body[..length];
    if |body| < U32 {
      assert payload == [] + body;
      EncodedLengthIsValid(fields, values);
      if TrailingOk(fields) {
        DecodesBody(fields, values, [], 0);
      } else {
        MisplacedTrailerPanics(fields, payload, 0, 0);
      }
    } else if DecodeFrom(fields, payload, 0, 0).Some? {
      DecodeInverts(fields, payload, 0, 0);
    }
  }
}
