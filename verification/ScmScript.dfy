/** The one reusable script buffer: an opcode, then tagged 32-bit parameters. */
module ScmScript {
  import opened Machine
  import opened Options

  const BUFFER_SIZE: nat := 256
  const LOCAL_VARS: nat := 18
  const TAG_INT32: u8 := 0x01
  const TAG_FLOAT: u8 := 0x06

  /** A float parameter is its 32 bits. */
  datatype Param = Int(v: i32) | Float(bits: u32)

  function EncodeParam(p: Param): (s: seq<u8>)
    ensures |s| == 5
  {
    match p
    case Int(v) => [TAG_INT32] + LE4(Unsigned32(v))
    case Float(bits) => [TAG_FLOAT] + LE4(bits)
  }

  function EncodeParams(ps: seq<Param>): (s: seq<u8>)
    ensures |s| == 5 * |ps|
  {
    if ps == [] then [] else EncodeParams(ps[..|ps| - 1]) + EncodeParam(ps[|ps| - 1])
  }

  function Encode(opcode: u16, ps: seq<Param>): (s: seq<u8>)
    ensures |s| == 2 + 5 * |ps|
  {
    [opcode % 256, opcode / 256] + EncodeParams(ps)
  }

  /** What the dispatcher reads: tag by tag, until the bytes run out. */
  function DecodeParams(s: seq<u8>): Option<seq<Param>> {
    if s == [] then Some([])
    else if |s| < 5 || (s[0] != TAG_INT32 && s[0] != TAG_FLOAT) || LittleEndian(s[1..5]) >= B32 then None
    else
      match DecodeParams(s[5..])
      case None => None
      case Some(rest) =>
        var w := LittleEndian(s[1..5]);
        Some([if s[0] == TAG_INT32 then Int(Signed32(w)) else Float(w)] + rest)
  }

  function Decode(s: seq<u8>): Option<(nat, seq<Param>)> {
    if |s| < 2 then None
    else
      match DecodeParams(s[2..])
      case None => None
      case Some(ps) => Some((s[0] as nat + 256 * s[1] as nat, ps))
  }

  lemma Associative(a: seq<u8>, b: seq<u8>, c: seq<u8>)
    ensures (a + b) + c == a + (b + c)
  {
  }

  /** Encoding goes parameter by parameter from the front, as decoding does. */
  lemma {:induction false} EncodeFirst(ps: seq<Param>)
    requires ps != []
    ensures EncodeParams(ps) == EncodeParam(ps[0]) + EncodeParams(ps[1..])
  {
    var n := |ps| - 1;
    if n == 0 {
      assert ps[..0] == [] && ps[1..] == [];
    } else {
      EncodeFirst(ps[..n]);
      assert ps[..n][1..] == ps[1..][..n - 1];
      Associative(EncodeParam(ps[0]), EncodeParams(ps[1..][..n - 1]), EncodeParam(ps[n]));
    }
  }

  lemma ParamBack(p: Param, rest: seq<u8>)
    requires DecodeParams(rest).Some?
    ensures DecodeParams(EncodeParam(p) + rest) == Some([p] + DecodeParams(rest).value)
  {
    var s := EncodeParam(p) + rest;
    assert s[5..] == rest;
    match p {
      case Int(v) =>
        LE4Back(Unsigned32(v));
        assert s[1..5] == LE4(Unsigned32(v));
      case Float(bits) =>
        LE4Back(bits);
        assert s[1..5] == LE4(bits);
    }
  }

  lemma {:induction false} ParamsBack(ps: seq<Param>)
    ensures DecodeParams(EncodeParams(ps)) == Some(ps)
  {
    if ps != [] {
      EncodeFirst(ps);
      ParamsBack(ps[1..]);
      ParamBack(ps[0], EncodeParams(ps[1..]));
      assert ps == [ps[0]] + ps[1..];
    }
  }

  /** Any opcode and any parameter list are read back as they were pushed. */
  lemma ScriptRoundTrip(opcode: u16, ps: seq<Param>)
    ensures Decode(Encode(opcode, ps)) == Some((opcode, ps))
  {
    ParamsBack(ps);
    assert Encode(opcode, ps)[2..] == EncodeParams(ps);
  }

  /** A parameter is a tag, 1 for integers and 6 for floats, and its word, lowest byte first. */
  lemma ParamBytes(p: Param)
    ensures var w := if p.Int? then p.v % 0x1_0000_0000 else p.bits;
      EncodeParam(p) ==
      [if p.Int? then 1 else 6, w % 256, w / 0x100 % 256, w / 0x1_0000 % 256, w / 0x100_0000]
  {
    var w := if p.Int? then Unsigned32(p.v) else p.bits;
    assert w == if p.Int? then p.v % 0x1_0000_0000 else p.bits;
  }

  /** The bytes of a call: the opcode, lowest byte first, then five bytes for each parameter. */
  lemma {:induction false} CallBytes(opcode: u16, ps: seq<Param>, i: nat)
    requires i < |ps|
    ensures var s := Encode(opcode, ps);
      s[..2] == [opcode % 256, opcode / 256] && s[2 + 5 * i..7 + 5 * i] == EncodeParam(ps[i])
  {
    ParamAt(ps, i);
    assert Encode(opcode, ps)[2..] == EncodeParams(ps);
    assert Encode(opcode, ps)[2 + 5 * i..7 + 5 * i] == EncodeParams(ps)[5 * i..5 * i + 5];
  }

  lemma {:induction false} ParamAt(ps: seq<Param>, i: nat)
    requires i < |ps|
    ensures EncodeParams(ps)[5 * i..5 * i + 5] == EncodeParam(ps[i])
  {
    var n := |ps| - 1;
    Halves(EncodeParams(ps[..n]), EncodeParam(ps[n]), 5 * i, 5 * i + 5);
    if i < n {
      ParamAt(ps[..n], i);
    }
  }

  lemma Halves(a: seq<u8>, b: seq<u8>, i: nat, j: nat)
    ensures i <= j <= |a| ==> (a + b)[i..j] == a[i..j]
    ensures i == |a| && j == i + |b| ==> (a + b)[i..j] == b
  {
  }

  class Script {
    const buf: array<u8>
    const localVars: array<u32>
    var ifFlag: u32
    var pos: nat
    ghost var opcode: u16
    ghost var params: seq<Param>

    ghost predicate Sized()
      reads this
    {
      buf.Length == 256 && localVars.Length == 18
    }

    /** The bytes before `pos` are the call begun by the last reset; those after it are stale. */
    ghost predicate Building()
      reads this, buf
    {
      Sized() && pos == 2 + 5 * |params| <= BUFFER_SIZE && buf[..pos] == Encode(opcode, params)
    }

    /** An arbitrary, dirty buffer. */
    constructor (dirty: seq<u8>, flag: u32)
      requires |dirty| == BUFFER_SIZE
      ensures Sized() && buf[..] == dirty && fresh(buf) && fresh(localVars)
    {
      buf := new u8[BUFFER_SIZE](i requires 0 <= i < BUFFER_SIZE => dirty[i]);
      localVars := new u32[LOCAL_VARS];
      ifFlag, pos, opcode, params := flag, 0, 0, [];
    }

    method Reset(op: u16)
      requires Sized()
      modifies this, buf, localVars
      ensures Building() && opcode == op && params == []
      ensures ifFlag == 0 && forall i :: 0 <= i < LOCAL_VARS ==> localVars[i] == 0
      ensures buf[2..] == old(buf[2..])
    {
      forall i | 0 <= i < LOCAL_VARS {
        localVars[i] := 0;
      }
      ifFlag := 0;
      buf[0] := op % 256;
      buf[1] := op / 256 % 256;
      pos := 2;
      opcode, params := op, [];
      assert EncodeParams([]) == [];
    }

    method PutWord(tag: u8, w: u32)
      requires Sized() && pos + 5 <= BUFFER_SIZE
      modifies this`pos, buf
      ensures pos == old(pos) + 5 && buf[..pos] == old(buf[..pos]) + [tag] + LE4(w)
      ensures buf[pos..] == old(buf[pos + 5..])
    {
      buf[pos] := tag;
      pos := pos + 1;
      buf[pos] := w % 256;
      buf[pos + 1] := w / 0x100 % 256;
      buf[pos + 2] := w / 0x1_0000 % 256;
      buf[pos + 3] := w / 0x100_0000 % 256;
      pos := pos + 4;
    }

    method PushInt(v: i32)
      requires Building() && |params| < 50
      modifies this`pos, this`params, buf
      ensures Building() && params == old(params) + [Int(v)]
    {
      PutWord(TAG_INT32, Unsigned32(v));
      params := params + [Int(v)];
      assert params[..|params| - 1] == old(params);
    }

    method PushFloat(bits: u32)
      requires Building() && |params| < 50
      modifies this`pos, this`params, buf
      ensures Building() && params == old(params) + [Float(bits)]
    {
      PutWord(TAG_FLOAT, bits);
      params := params + [Float(bits)];
      assert params[..|params| - 1] == old(params);
    }

    method Push(p: Param)
      requires Building() && |params| < 50
      modifies this`pos, this`params, buf
      ensures Building() && params == old(params) + [p]
    {
      match p {
        case Int(v) => PushInt(v);
        case Float(bits) => PushFloat(bits);
      }
    }

    /** Any call of at most fifty parameters, from any dirty buffer: the bytes before the
        position decode to exactly that opcode and those parameters. */
    method Call(op: u16, ps: seq<Param>)
      requires Sized() && |ps| <= 50
      modifies this, buf, localVars
      ensures Building() && opcode == op && params == ps
      ensures pos == 2 + 5 * |ps| && Decode(buf[..pos]) == Some((op, ps))
    {
      Reset(op);
      for i := 0 to |ps|
        invariant Building() && opcode == op && params == ps[..i]
      {
        Push(ps[i]);
        assert ps[..i + 1] == ps[..i] + [ps[i]];
      }
      assert ps[..|ps|] == ps;
      ScriptRoundTrip(op, ps);
    }

    method SelectInterior(id: i32)
      requires Sized()
      modifies this, buf, localVars
      ensures Building() && Decode(buf[..pos]) == Some((0x04BB, [Int(id)]))
    {
      Reset(0x04BB);
      PushInt(id);
      assert params == [Int(id)];
      ScriptRoundTrip(0x04BB, params);
    }

    method LinkActorToInterior(actor: i32, interior: i32)
      requires Sized()
      modifies this, buf, localVars
      ensures Building() && Decode(buf[..pos]) == Some((0x0860, [Int(actor), Int(interior)]))
    {
      Reset(0x0860);
      PushInt(actor);
      PushInt(interior);
      assert params == [Int(actor), Int(interior)];
      ScriptRoundTrip(0x0860, params);
    }

    method RefreshStreamingAt(x: u32, y: u32)
      requires Sized()
      modifies this, buf, localVars
      ensures Building() && Decode(buf[..pos]) == Some((0x04E4, [Float(x), Float(y)]))
    {
      Reset(0x04E4);
      PushFloat(x);
      PushFloat(y);
      assert params == [Float(x), Float(y)];
      ScriptRoundTrip(0x04E4, params);
    }
  }
}
