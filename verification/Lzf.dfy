/** lzf_compress and lzf_decompress (lzf_c.c, lzf_d.c) with VERY_FAST = 1, INIT_HTAB = 0,
    HLOG = 16 and CHECK_INPUT = 1. */
module Lzf {
  import opened Bytes

  const MAX_LIT := 32
  const MAX_OFF := 8192
  const MAX_REF := 264
  const HSIZE := 65536
  const WORD := 0x1_0000_0000_0000_0000

  // ------------------------------------------------------------------ the format

  /** One item of the compressed format. A back reference copies len + 2 bytes starting
      off + 1 bytes before the end of the output. */
  datatype Token = Literal(bytes: seq<byte>) | BackRef(off: nat, len: nat)

  predicate Encodable(t: Token) {
    match t
    case Literal(bytes) => 1 <= |bytes| <= MAX_LIT
    case BackRef(off, len) => off < MAX_OFF && 1 <= len <= MAX_REF - 2
  }

  /** Token lists grow at their end. */
  datatype Tokens = Empty | More(init: Tokens, last: Token)

  predicate AllEncodable(ts: Tokens) {
    ts.Empty? || (AllEncodable(ts.init) && Encodable(ts.last))
  }

  /** 000LLLLL bytes | LLLooooo oooooooo | 111ooooo LLLLLLLL oooooooo */
  function Emit(t: Token): seq<byte>
    requires Encodable(t)
  {
    match t
    case Literal(bytes) => [|bytes| - 1] + bytes
    case BackRef(off, len) =>
      if len < 7 then [len * 32 + off / 256, off % 256]
      else [7 * 32 + off / 256, len - 7, off % 256]
  }

  function EmitAll(ts: Tokens): seq<byte>
    requires AllEncodable(ts)
  {
    match ts
    case Empty => []
    case More(init, last) => EmitAll(init) + Emit(last)
  }

  /** n bytes copied one at a time from off + 1 bytes back: the source of the copy may
      overlap its destination. */
  function CopyBack(out: seq<byte>, off: nat, n: nat): (r: seq<byte>)
    requires off < |out|
    ensures |r| == |out| + n
    decreases n
  {
    if n == 0 then out else CopyBack(out + [out[|out| - off - 1]], off, n - 1)
  }

  function Apply(out: seq<byte>, t: Token): Option<seq<byte>> {
    match t
    case Literal(bytes) => Some(out + bytes)
    case BackRef(off, len) => if off < |out| then Some(CopyBack(out, off, len + 2)) else None
  }

  /** The text a token list stands for; None when a reference points before its start. */
  function Expand(ts: Tokens): Option<seq<byte>> {
    match ts
    case Empty => Some([])
    case More(init, last) =>
      match Expand(init) {
        case None => None
        case Some(out) => Apply(out, last)
      }
  }

  /** c is a compressed form of s. */
  ghost predicate Compressed(c: seq<byte>, s: seq<byte>) {
    exists ts: Tokens :: ts.More? && AllEncodable(ts) && EmitAll(ts) == c && Expand(ts) == Some(s)
  }

  // ------------------------------------------------------------------ decoding

  /** The token at ip and the position after it; None when c is cut short. */
  function ParseToken(c: seq<byte>, ip: nat): (r: Option<(Token, nat)>)
    requires ip < |c|
    ensures r.Some? ==> var (t, ip') := r.value; Encodable(t) && ip < ip' <= |c| && Emit(t) == c[ip..ip']
  {
    var ctrl := c[ip] as int;
    if ctrl < 32 then
      if ip + ctrl + 2 > |c| then None else Some((Literal(c[ip + 1..ip + ctrl + 2]), ip + ctrl + 2))
    else if ctrl / 32 < 7 then
      if ip + 2 > |c| then None
      else Some((BackRef(ctrl % 32 * 256 + c[ip + 1] as int, ctrl / 32), ip + 2))
    else
      if ip + 3 > |c| then None
      else Some((BackRef(ctrl % 32 * 256 + c[ip + 2] as int, 7 + c[ip + 1] as int), ip + 3))
  }

  function Size(t: Token): nat {
    match t
    case Literal(bytes) => |bytes|
    case BackRef(_, len) => len + 2
  }

  /** One round of the decoder: the new read position and output, or None on an error. */
  function Step(c: seq<byte>, ip: nat, out: seq<byte>, limit: nat): (r: Option<(nat, seq<byte>)>)
    requires ip < |c|
    ensures r.Some? ==> ip < r.value.0 <= |c| && |out| < |r.value.1| <= limit
  {
    match ParseToken(c, ip)
    case None => None
    case Some((t, ip')) =>
      if |out| + Size(t) > limit then None
      else match Apply(out, t) {
        case None => None
        case Some(out') => Some((ip', out'))
      }
  }

  /** What lzf_decompress makes of c[ip..] after producing out, when limit bytes fit. */
  function Decode(c: seq<byte>, ip: nat, out: seq<byte>, limit: nat): Option<seq<byte>>
    requires ip <= |c|
    decreases |c| - ip
  {
    if ip == |c| then Some(out)
    else match Step(c, ip, out, limit) {
      case None => None
      case Some((ip', out')) => Decode(c, ip', out', limit)
    }
  }

  function Decompress(c: seq<byte>, limit: nat): Option<seq<byte>> {
    Decode(c, 0, [], limit)
  }

  lemma ParseEmitted(t: Token, c: seq<byte>, ip: nat)
    requires Encodable(t) && ip + |Emit(t)| <= |c| && c[ip..ip + |Emit(t)|] == Emit(t)
    ensures ip < |c| && ParseToken(c, ip) == Some((t, ip + |Emit(t)|))
  {
    var e := Emit(t);
    forall k | 0 <= k < |e| ensures c[ip + k] == e[k] {
      assert c[ip..ip + |e|][k] == e[k];
    }
    match t {
      case Literal(bytes) =>
        assert c[ip] == e[0];
        assert c[ip + 1..ip + 1 + |bytes|] == e[1..] == bytes;
      case BackRef(off, len) =>
        assert c[ip] == e[0] && c[ip + 1] == e[1];
        assert off / 256 < 32;
    }
  }

  lemma StepEmitted(t: Token, c: seq<byte>, ip: nat, out: seq<byte>, limit: nat)
    requires Encodable(t) && ip + |Emit(t)| <= |c| && c[ip..ip + |Emit(t)|] == Emit(t)
    requires Apply(out, t).Some? && |Apply(out, t).value| <= limit
    ensures ip < |c| && Step(c, ip, out, limit) == Some((ip + |Emit(t)|, Apply(out, t).value))
  {
    ParseEmitted(t, c, ip);
  }

  /** Decoding runs through the tokens it is given, whatever follows them. */
  lemma {:induction false} DecodeTokens(ts: Tokens, c: seq<byte>, limit: nat)
    requires AllEncodable(ts) && EmitAll(ts) <= c
    requires Expand(ts).Some? && |Expand(ts).value| <= limit
    ensures Decompress(c, limit) == Decode(c, |EmitAll(ts)|, Expand(ts).value, limit)
  {
    hide Decode, Step, Emit, Apply, Encodable;
    if ts.More? {
      var ip, ip' := |EmitAll(ts.init)|, |EmitAll(ts)|;
      var out := Expand(ts.init).value;
      Middle(c, EmitAll(ts.init), Emit(ts.last));
      ApplyGrows(out, ts.last);
      StepEmitted(ts.last, c, ip, out, limit);
      DecodeTokens(ts.init, c, limit);
      DecodeStep(c, ip, out, limit);
    }
  }

  lemma Middle(c: seq<byte>, a: seq<byte>, b: seq<byte>)
    requires a + b <= c
    ensures a <= c && |a| + |b| <= |c| && c[|a|..|a| + |b|] == b
  {
    assert a == (a + b)[..|a|] == c[..|a|];
    assert c[|a|..|a| + |b|] == (a + b)[|a|..];
  }

  lemma ApplyGrows(out: seq<byte>, t: Token)
    ensures Apply(out, t).Some? ==> |out| <= |Apply(out, t).value|
  {
  }

  lemma DecodeStep(c: seq<byte>, ip: nat, out: seq<byte>, limit: nat)
    requires ip < |c| && Step(c, ip, out, limit).Some?
    ensures var (ip', out') := Step(c, ip, out, limit).value;
            Decode(c, ip, out, limit) == Decode(c, ip', out', limit)
  {
  }

  /** What decodes is a token list: ts0 is the part of it before ip. */
  lemma {:induction false} TokensOfDecoded(c: seq<byte>, ip: nat, ts0: Tokens, limit: nat) returns (ts: Tokens)
    requires ip <= |c| && AllEncodable(ts0) && EmitAll(ts0) == c[..ip] && Expand(ts0).Some?
    requires Decode(c, ip, Expand(ts0).value, limit).Some?
    ensures AllEncodable(ts) && EmitAll(ts) == c
    ensures Expand(ts) == Decode(c, ip, Expand(ts0).value, limit)
    ensures ip < |c| ==> |Expand(ts).value| <= limit
    decreases |c| - ip
  {
    ts := ts0;
    if ip < |c| {
      var (t, ip') := ParseToken(c, ip).value;
      assert c[..ip'] == c[..ip] + c[ip..ip'];
      ts := TokensOfDecoded(c, ip', More(ts0, t), limit);
    }
  }

  /** The decoder accepts exactly the compressed forms of the texts that fit, and returns
      the text; in particular a non-empty input has at most one reading. */
  lemma DecompressExact(c: seq<byte>, s: seq<byte>, limit: nat)
    requires c != []
    ensures Decompress(c, limit) == Some(s) <==> Compressed(c, s) && |s| <= limit
  {
    if Decompress(c, limit) == Some(s) {
      var ts := TokensOfDecoded(c, 0, Empty, limit);
    }
    if Compressed(c, s) && |s| <= limit {
      var ts: Tokens :| AllEncodable(ts) && EmitAll(ts) == c && Expand(ts) == Some(s);
      DecodeTokens(ts, c, limit);
    }
  }

  lemma Longer<T>(s: seq<T>, i: nat, j: nat)
    requires i <= j < |s|
    ensures s[i..j + 1] == s[i..j] + [s[j]]
  {
  }

  /** The literal copy of lzf_decompress. */
  method CopyLiteral(c: seq<byte>, ip: nat, out: array<byte>, op: nat, n: nat)
    requires ip + n <= |c| && op + n <= out.Length
    modifies out
    ensures out[..op + n] == old(out[..op]) + c[ip..ip + n] && out[op + n..] == old(out[op + n..])
  {
    var k := 0;
    while k < n
      invariant 0 <= k <= n && out[op + n..] == old(out[op + n..])
      invariant out[..op + k] == old(out[..op]) + c[ip..ip + k]
    {
      Longer(c, ip, ip + k);
      out[op + k] := c[ip + k];
      assert out[..op + k + 1] == out[..op + k] + [out[op + k]];
      k := k + 1;
    }
  }

  lemma CopyBackStep(out: seq<byte>, off: nat, n: nat)
    requires off < |out|
    ensures CopyBack(out, off, n + 1) == CopyBack(out, off, n) + [CopyBack(out, off, n)[|out| + n - off - 1]]
    decreases n
  {
    if n > 0 {
      var out' := out + [out[|out| - off - 1]];
      CopyBackStep(out', off, n - 1);
    }
  }

  /** The back-reference copy of lzf_decompress: every byte is read after the previous
      one was written. */
  method CopyRef(out: array<byte>, ref: nat, op: nat, n: nat)
    requires ref < op && op + n <= out.Length
    modifies out
    ensures out[..op + n] == CopyBack(old(out[..op]), op - ref - 1, n) && out[op + n..] == old(out[op + n..])
  {
    var k := 0;
    while k < n
      invariant 0 <= k <= n && out[op + n..] == old(out[op + n..])
      invariant out[..op + k] == CopyBack(old(out[..op]), op - ref - 1, k)
    {
      CopyBackStep(old(out[..op]), op - ref - 1, k);
      assert out[ref + k] == out[..op + k][ref + k];
      out[op + k] := out[ref + k];
      k := k + 1;
    }
  }

  /** One iteration of lzf_decompress's loop; ok is false where it returns 0. */
  method DecodeOne(c: seq<byte>, ip0: nat, out: array<byte>, op0: nat) returns (ok: bool, ip: nat, op: nat)
    requires ip0 < |c| && op0 <= out.Length
    modifies out
    ensures ip <= |c| && op <= out.Length
    ensures Step(c, ip0, old(out[..op0]), out.Length) == if ok then Some((ip, out[..op])) else None
    ensures ok ==> op0 <= op && out[op..] == old(out[op..])
  {
    hide CopyBack, Emit;
    ok, ip, op := false, ip0, op0;
    var ctrl: int := c[ip];
    ip := ip + 1;
    if ctrl < 32 {
      ctrl := ctrl + 1;
      if op + ctrl > out.Length { return; }
      if ip + ctrl > |c| { return; }
      CopyLiteral(c, ip, out, op, ctrl);
      ok, ip, op := true, ip + ctrl, op + ctrl;
    } else {
      var len: int := ctrl / 32;
      var ref: int := op - ctrl % 32 * 256 - 1;
      if ip >= |c| { return; }
      if len == 7 {
        len, ip := len + c[ip], ip + 1;
        if ip >= |c| { return; }
      }
      ref, ip := ref - c[ip], ip + 1;
      if op + len + 2 > out.Length { return; }
      if ref < 0 { return; }
      CopyRef(out, ref, op, len + 2);
      ok, op := true, op + (len + 2);
    }
  }

  /** lzf_decompress: 0 on a malformed input or a full output, otherwise the number of
      bytes produced. Reads stay inside c and writes inside out, for every input. */
  method LzfDecompress(c: seq<byte>, out: array<byte>) returns (r: nat)
    requires c != []
    modifies out
    ensures match Decompress(c, out.Length)
      case None => r == 0
      case Some(s) => r == |s| <= out.Length && out[..r] == s && out[r..] == old(out[r..])
  {
    var ip, op, ok := 0, 0, true;
    assert out[..0] == [];
    while ip < |c|
      invariant 0 <= ip <= |c| && 0 <= op <= out.Length && out[op..] == old(out[op..])
      invariant Decode(c, ip, out[..op], out.Length) == Decompress(c, out.Length)
    {
      ghost var before, op1 := out[..], op;
      ok, ip, op := DecodeOne(c, ip, out, op);
      if !ok { return 0; }
      assert before[op..] == before[op1..][op - op1..];
      assert old(out[op..]) == old(out[op1..])[op - op1..];
    }
    r := op;
  }

  // ------------------------------------------------------------------ compression

  /** FRST, NEXT and IDX on 32-bit words, for VERY_FAST and HLOG = 16. */
  function First(input: seq<byte>, ip: nat): nat
    requires ip + 1 < |input|
  {
    input[ip] as int * 256 + input[ip + 1] as int
  }

  function Next(v: nat, input: seq<byte>, ip: nat): nat
    requires ip + 2 < |input|
  {
    (v * 256 + input[ip + 2] as int) % 0x1_0000_0000
  }

  function Idx(h: nat): (i: nat)
    ensures i < HSIZE
  {
    (h / 256 - h * 5) % HSIZE
  }

  /** A hash slot holds an arbitrary 64-bit pointer until the first store to it. */
  type Pointer = w: int | 0 <= w < WORD

  /** The most that a token list without its last, open run takes for n bytes of text. */
  function Worst(n: nat): nat { n + n / 32 }

  /** out[..op] is a token list for input[..ip]. */
  ghost predicate Closed(out: seq<byte>, input: seq<byte>, ts: Tokens, ip: int, op: int) {
    && 0 <= ip <= |input| && 0 <= op <= |out|
    && AllEncodable(ts) && EmitAll(ts) == out[..op] && Expand(ts) == Some(input[..ip])
  }

  /** A run of lit literals is open: its bytes are written, its length byte, just before
      them, is not. */
  ghost predicate Open(out: seq<byte>, input: seq<byte>, ts: Tokens, ip: int, op: int, lit: int) {
    && 0 <= lit <= MAX_LIT && lit < op <= |out| && lit <= ip <= |input|
    && Closed(out, input, ts, ip - lit, op - lit - 1)
    && out[op - lit..op] == input[ip - lit..ip]
    && op - lit - 1 <= Worst(ip - lit)
  }

  lemma AddLiteral(out: seq<byte>, out': seq<byte>, input: seq<byte>, ts: Tokens, ip: nat, op: nat, lit: nat)
    requires Open(out, input, ts, ip, op, lit) && lit < MAX_LIT && ip < |input| && op < |out|
    requires out' == out[op := input[ip]]
    ensures Open(out', input, ts, ip + 1, op + 1, lit + 1)
  {
    assert out'[..op - lit - 1] == out[..op - lit - 1];
    assert out'[op - lit..op + 1] == out[op - lit..op] + [input[ip]];
    assert input[ip - lit..ip + 1] == input[ip - lit..ip] + [input[ip]];
  }

  lemma JoinSlices<T>(s: seq<T>, i: nat, j: nat)
    requires i <= j <= |s|
    ensures s[..j] == s[..i] + s[i..j]
  {
  }

  lemma CloseRun(out: seq<byte>, input: seq<byte>, ts: Tokens, ip: nat, op: nat, lit: nat)
    requires 1 <= lit && Open(out, input, ts, ip, op, lit) && out[op - lit - 1] == lit - 1
    ensures Closed(out, input, More(ts, Literal(input[ip - lit..ip])), ip, op)
  {
    hide CopyBack, AllEncodable, EmitAll, Expand;
    LiteralAdded(ts, input[ip - lit..ip]);
    JoinSlices(out, op - lit - 1, op);
    JoinSlices(input, ip - lit, ip);
    assert out[op - lit - 1..op] == [out[op - lit - 1]] + out[op - lit..op];
  }

  lemma LiteralAdded(ts: Tokens, bytes: seq<byte>)
    requires AllEncodable(ts) && Expand(ts).Some? && 1 <= |bytes| <= MAX_LIT
    ensures var more := More(ts, Literal(bytes));
            && AllEncodable(more) && EmitAll(more) == EmitAll(ts) + ([|bytes| - 1] + bytes)
            && Expand(more) == Some(Expand(ts).value + bytes)
  {
  }

  lemma PatchKeepsOpen(out: seq<byte>, out': seq<byte>, input: seq<byte>, ts: Tokens, ip: nat, op: nat, lit: nat,
                       b: byte)
    requires Open(out, input, ts, ip, op, lit) && out' == out[op - lit - 1 := b]
    ensures Open(out', input, ts, ip, op, lit)
  {
    assert out'[..op - lit - 1] == out[..op - lit - 1];
    assert out'[op - lit..op] == out[op - lit..op];
  }

  /** Patches the length byte of a run of lit literals. */
  method PatchRun(out: array<byte>, op: nat, lit: nat, ghost input: seq<byte>, ghost ip: nat, ghost ts: Tokens)
    requires 1 <= lit && Open(out[..], input, ts, ip, op, lit)
    modifies out
    ensures Closed(out[..], input, More(ts, Literal(input[ip - lit..ip])), ip, op)
  {
    out[op - lit - 1] := lit - 1;
    PatchKeepsOpen(old(out[..]), out[..], input, ts, ip, op, lit, lit - 1);
    CloseRun(out[..], input, ts, ip, op, lit);
  }

  /** Ends a run: patches its length byte, or drops the byte when the run is empty. */
  method StopRun(out: array<byte>, op0: nat, lit: nat, ghost input: seq<byte>, ghost ip: nat, ghost ts0: Tokens)
    returns (op: nat, ghost ts: Tokens)
    requires Open(out[..], input, ts0, ip, op0, lit) && lit < MAX_LIT
    modifies out
    ensures Closed(out[..], input, ts, ip, op)
    ensures op == if lit == 0 then op0 - 1 else op0
    ensures op <= ip + (ip + 31) / 32
    ensures ip > 0 ==> ts.More?
  {
    op, ts := op0, ts0;
    if lit == 0 {
      out[op0 - 1] := 255;
      op := op0 - 1;
      PatchKeepsOpen(old(out[..]), out[..], input, ts, ip, op0, lit, 255);
    } else {
      PatchRun(out, op0, lit, input, ip, ts0);
      ts := More(ts0, Literal(input[ip - lit..ip]));
    }
  }

  /** Copies one literal, and starts a new run when the current one is full. */
  method PutLiteral(input: seq<byte>, ip0: nat, out: array<byte>, op0: nat, lit0: nat, ghost ts0: Tokens)
    returns (ip: nat, op: nat, lit: nat, ghost ts: Tokens)
    requires Open(out[..], input, ts0, ip0, op0, lit0) && lit0 < MAX_LIT
    requires ip0 < |input| && op0 + 2 <= out.Length
    modifies out
    ensures Open(out[..], input, ts, ip, op, lit) && lit < MAX_LIT
    ensures ip == ip0 + 1
    ensures if lit0 + 1 == MAX_LIT then lit == 0 && op == op0 + 2 else lit == lit0 + 1 && op == op0 + 1
  {
    hide Closed;
    out[op0] := input[ip0];
    AddLiteral(old(out[..]), out[..], input, ts0, ip0, op0, lit0);
    ip, op, lit, ts := ip0 + 1, op0 + 1, lit0 + 1, ts0;
    if lit == MAX_LIT {
      PatchRun(out, op, lit, input, ip, ts0);
      ts := More(ts0, Literal(input[ip - lit..ip]));
      lit, op := 0, op + 1;
    }
  }

  /** The n bytes at ref equal the n bytes at ip. */
  predicate Same(input: seq<byte>, ref: nat, ip: nat, n: nat) {
    ref <= ip && ip + n <= |input| && input[ref..ref + n] == input[ip..ip + n]
  }

  lemma SameStep(input: seq<byte>, ref: nat, ip: nat, n: nat)
    requires ref <= ip && ip + n < |input|
    ensures Same(input, ref, ip, n + 1) <==> Same(input, ref, ip, n) && input[ref + n] == input[ip + n]
  {
    assert input[ref..ref + n + 1] == input[ref..ref + n] + [input[ref + n]];
    assert input[ip..ip + n + 1] == input[ip..ip + n] + [input[ip + n]];
    if Same(input, ref, ip, n + 1) {
      assert input[ref..ref + n] == input[ref..ref + n + 1][..n];
      assert input[ref + n] == input[ref..ref + n + 1][n];
    }
  }

  /** The longest match that the compressor looks for at ip. */
  function Limit(input: seq<byte>, ip: nat): int { if |input| - ip - 2 > MAX_REF then MAX_REF else |input| - ip - 2 }

  /** How far the text at ref matches the text at ip: sixteen unrolled comparisons when
      enough text is left, then one at a time. */
  method MatchLength(input: seq<byte>, ref: nat, ip: nat) returns (len: nat)
    requires ref < ip && ip + 4 < |input|
    requires Same(input, ref, ip, 3)
    ensures 3 <= len <= MAX_REF && ip + len <= |input|
    ensures Same(input, ref, ip, len)
    ensures len >= Limit(input, ip) || input[ref + len] != input[ip + len]
  {
    len := 2;
    var maxlen := |input| - ip - len;
    if maxlen > MAX_REF { maxlen := MAX_REF; }
    if maxlen > 16 {
      while len < 18
        invariant 2 <= len <= 18
        invariant Same(input, ref, ip, len + 1)
      {
        len := len + 1;
        if input[ref + len] != input[ip + len] { return; }
        SameStep(input, ref, ip, len);
      }
    }
    len := len + 1;
    while len < maxlen && input[ref + len] == input[ip + len]
      invariant 3 <= len && (len <= maxlen || len == 19)
      invariant ip + len <= |input|
      invariant Same(input, ref, ip, len)
    {
      SameStep(input, ref, ip, len);
      len := len + 1;
    }
  }

  lemma {:induction false} CopyBackMatches(input: seq<byte>, ref: nat, ip: nat, n: nat)
    requires ref < ip && ip + n <= |input|
    requires Same(input, ref, ip, n)
    ensures CopyBack(input[..ip], ip - ref - 1, n) == input[..ip + n]
  {
    if n > 0 {
      SameStep(input, ref, ip, n - 1);
      CopyBackMatches(input, ref, ip, n - 1);
      CopyBackStep(input[..ip], ip - ref - 1, n - 1);
    }
  }

  /** Writes a back reference of len + 2 bytes. */
  method PutRef(out: array<byte>, op0: nat, off: nat, len: nat) returns (op: nat)
    requires Encodable(BackRef(off, len)) && op0 + 3 <= out.Length
    modifies out
    ensures op == op0 + |Emit(BackRef(off, len))| <= out.Length
    ensures out[..op] == old(out[..op0]) + Emit(BackRef(off, len))
  {
    op := op0;
    if len < 7 {
      out[op] := off / 256 + len * 32;
      op := op + 1;
    } else {
      out[op] := off / 256 + 7 * 32;
      out[op + 1] := len - 7;
      op := op + 2;
    }
    out[op] := off % 256;
    op := op + 1;
  }

  /** The slot points behind the first byte of the input and not too far before ip, where the same three bytes are, and
      more than four bytes are left. */
  predicate Usable(input: seq<byte>, base: nat, ip: nat, slot: Pointer) {
    && base < slot < base + ip && base + ip - slot <= MAX_OFF && ip + 4 < |input|
    && input[slot - base] == input[ip] && input[slot - base + 1] == input[ip + 1]
    && input[slot - base + 2] == input[ip + 2]
  }

  /** The table lookup and the test for a usable match at ip. */
  method Probe(input: seq<byte>, base: nat, ip: nat, slot: Pointer) returns (found: bool, off: nat)
    requires MAX_OFF <= base && base + |input| < WORD && ip + 2 < |input|
    ensures found ==> off < MAX_OFF && off < ip && ip + 4 < |input| && Same(input, ip - off - 1, ip, 3)
    ensures found ==> slot == base + (ip - off - 1)
    ensures found <==> Usable(input, base, ip, slot)
  {
    off := (base + ip - slot - 1) % WORD;
    found := off < MAX_OFF && ip + 4 < |input| && slot > base;
    if found {
      assert slot == base + (ip - off - 1);
      var ref := ip - off - 1;
      found := input[ref] == input[ip] && input[ref + 1] == input[ip + 1] && input[ref + 2] == input[ip + 2];
    }
  }

  lemma AddMatch(out: seq<byte>, out': seq<byte>, input: seq<byte>, ts: Tokens, ip: nat, op: nat, t: Token, op': nat)
    requires Closed(out, input, ts, ip, op)
    requires t.BackRef? && Encodable(t) && t.off < ip && Same(input, ip - t.off - 1, ip, t.len + 2)
    requires op' <= |out'| && out'[..op'] == out[..op] + Emit(t)
    ensures Closed(out', input, More(ts, t), ip + (t.len + 2), op')
  {
    hide CopyBack, Emit;
    CopyBackMatches(input, ip - t.off - 1, ip, t.len + 2);
  }

  lemma MatchPays(ip: nat, op: nat, t: Token)
    requires t.BackRef? && Encodable(t) && op <= ip + (ip + 31) / 32
    ensures op + |Emit(t)| <= Worst(ip + (t.len + 2)) && 2 <= |Emit(t)| <= 3
  {
  }

  /** The match branch: ends the literal run, extends the match and writes the reference.
      ok is false where the source returns 0. */
  method PutMatch(input: seq<byte>, ip0: nat, off: nat, out: array<byte>, op0: nat, lit: nat, ghost ts0: Tokens)
    returns (ok: bool, ip: nat, op: nat, ghost ts: Tokens)
    requires Open(out[..], input, ts0, ip0, op0, lit) && lit < MAX_LIT
    requires off < MAX_OFF && off < ip0 && ip0 + 4 < |input| && Same(input, ip0 - off - 1, ip0, 3)
    modifies out
    ensures ok ==> Open(out[..], input, ts, ip, op, 0) && op < out.Length && ip0 + 3 <= ip
    ensures ok <==> (if lit == 0 then op0 - 1 else op0) + 4 < out.Length - 1
    ensures ok ==> 3 <= op - (if lit == 0 then op0 - 1 else op0) <= 4
    ensures ok ==> ip - ip0 <= MAX_REF && (ip - ip0 >= Limit(input, ip0) || input[ip - off - 1] != input[ip])
  {
    hide Closed, Same, Emit;
    ok, ip := false, ip0;
    op, ts := StopRun(out, op0, lit, input, ip0, ts0);
    if op + 3 + 1 >= out.Length - 1 { return; }
    var len := MatchLength(input, ip0 - off - 1, ip0);
    ghost var closed, opc, t := out[..], op, BackRef(off, len - 2);
    op := PutRef(out, op, off, len - 2);
    AddMatch(closed, out[..], input, ts, ip0, opc, t, op);
    MatchPays(ip0, opc, t);
    ok, ip, op, ts := true, ip0 + len, op + 1, More(ts, t);
    assert out[..][op..op] == input[ip..ip];
  }

  lemma NothingClosed(out: seq<byte>, input: seq<byte>)
    ensures Closed(out, input, Empty, 0, 0)
  {
  }

  lemma ClosedIsCompressed(out: seq<byte>, input: seq<byte>, ts: Tokens, op: nat)
    requires Closed(out, input, ts, |input|, op) && ts.More?
    ensures 0 < op && Compressed(out[..op], input)
  {
    assert |Emit(ts.last)| > 0;
    assert input[..|input|] == input;
  }

  // ------------------------------------------------------------------ the hash table

  /** Three bytes of the input as a number, and the slot they are hashed to. */
  function Three(input: seq<byte>, ip: nat): nat
    requires ip + 2 < |input|
  {
    First(input, ip) * 256 + input[ip + 2] as int
  }

  function Slot(input: seq<byte>, ip: nat): (i: nat)
    requires ip + 2 < |input|
    ensures i < HSIZE
  {
    Idx(Three(input, ip))
  }

  /** However many bytes the running hash has seen, the slot is that of the last three. */
  lemma SlotOfThree(v: nat, input: seq<byte>, ip: nat)
    requires ip + 2 < |input| && v % 0x1_0000 == First(input, ip)
    ensures Idx(Next(v, input, ip)) == Slot(input, ip) && Next(v, input, ip) % 0x1_0000 == First(input, ip + 1)
  {
    hide Idx;
    var a, t := v / 0x1_0000, Three(input, ip);
    assert v == a * 0x1_0000 + First(input, ip);
    assert v * 256 + input[ip + 2] as int == a * 0x100_0000 + t;
    LowBytes(a, t);
    IdxLow(a % 256, t);
    ThreeLow(input, ip);
  }

  lemma ThreeLow(input: seq<byte>, ip: nat)
    requires ip + 2 < |input|
    ensures Three(input, ip) < 0x100_0000 && Three(input, ip) % 0x1_0000 == First(input, ip + 1)
  {
    var b, c := input[ip] as int, First(input, ip + 1);
    assert Three(input, ip) == b * 0x1_0000 + c;
  }

  lemma LowBytes(a: nat, t: nat)
    requires t < 0x100_0000
    ensures (a * 0x100_0000 + t) % 0x1_0000_0000 == (a % 256) * 0x100_0000 + t
    ensures ((a % 256) * 0x100_0000 + t) % 0x1_0000 == t % 0x1_0000
  {
    var q, m := a / 256, a % 256;
    assert a * 0x100_0000 + t == q * 0x1_0000_0000 + (m * 0x100_0000 + t);
  }

  lemma IdxLow(m: nat, t: nat)
    ensures Idx(m * 0x100_0000 + t) == Idx(t)
  {
    var h := m * 0x100_0000 + t;
    assert h / 256 == m * 0x1_0000 + t / 256;
    assert h / 256 - h * 5 == t / 256 - t * 5 + (m - 1280 * m) * HSIZE;
    ModAdds(t / 256 - t * 5, m - 1280 * m);
  }

  lemma ModAdds(x: int, k: int)
    ensures (x + k * HSIZE) % HSIZE == x % HSIZE
  {
  }

  // ------------------------------------------------------------------ a run of one byte

  /** At least twenty times the same byte. */
  predicate Uniform(input: seq<byte>) { 20 <= |input| && forall i :: 0 <= i < |input| ==> input[i] == input[0] }

  /** What the first n such bytes take at most, once they are compressed. */
  function Cost(n: nat): nat { if n <= 2 then 0 else 3 + 3 * ((n + 261) / 264) }

  /** How the compressor goes about them: two literals, then references of 264 bytes, the last one shorter or followed
      by four literals at most. v is the content of their one slot. */
  predicate Running(input: seq<byte>, base: nat, v: int, ip: int, op: int, lit: int) {
    var n, x, c := |input|, ip - lit, op - lit - 1;
    Uniform(input) ==>
      && 0 <= lit && 0 <= x <= ip <= n && 0 <= c <= Cost(x) && (x > 2 ==> c > 0)
      && (0 < ip < n - 2 ==> v == base + ip - 1)
      && ((x == 0 && ip <= 2)
          || (x > 2 && lit == 0 && (ip >= n - 2 || (ip - 2) % 264 == 0))
          || (x > 2 && n - x <= 4))
  }

  lemma SameSlot(input: seq<byte>, ip: nat)
    requires Uniform(input) && ip + 2 < |input|
    ensures Slot(input, ip) == Slot(input, 0)
  {
  }

  /** The bytes in front of ip are always found again, except at the start and at the end. */
  lemma RunUsable(input: seq<byte>, base: nat, v: Pointer, ip: nat, op: nat, lit: nat)
    requires Uniform(input) && Running(input, base, v, ip, op, lit) && ip < |input| - 2
    ensures Usable(input, base, ip, v) <==> ip >= 2 && ip + 4 < |input|
    ensures Usable(input, base, ip, v) ==> v == base + ip - 1
  {
  }

  lemma RunLiteral(input: seq<byte>, base: nat, v: Pointer, ip: nat, op: nat, lit: nat, outLen: nat)
    requires Uniform(input) && Running(input, base, v, ip, op, lit) && ip < |input| - 2 && |input| - 4 <= outLen
    requires !Usable(input, base, ip, v)
    ensures op < outLen && lit < 4 && Running(input, base, base + ip, ip + 1, op + 1, lit + 1)
  {
    RunUsable(input, base, v, ip, op, lit);
  }

  /** One reference of up to 264 bytes more. */
  lemma CostMore(x: nat, len: nat)
    requires x >= 2 && (x - 2) % 264 == 0 && 1 <= len <= 264
    ensures Cost(x + len) == (if x == 2 then 6 else Cost(x) + 3)
    ensures len == 264 ==> (x + len - 2) % 264 == 0
  {
    var k := (x - 2) / 264;
    By264(k, 263);
    By264(k + 1, len - 1);
    if len == 264 { By264(k + 1, 0); }
    assert x + 261 == 264 * k + 263 && x + len + 261 == 264 * (k + 1) + (len - 1);
  }

  lemma By264(k: nat, r: nat)
    requires r < 264
    ensures (264 * k + r) / 264 == k && (264 * k + r) % 264 == r
  {
  }

  lemma CostRoom(x: nat, outLen: nat)
    requires x > 2 && x <= outLen + 4 && 20 <= outLen + 4
    ensures Cost(x) + 8 <= outLen
  {
  }

  lemma RunMatch(input: seq<byte>, base: nat, v: Pointer, ip: nat, op: nat, lit: nat, outLen: nat)
    requires Uniform(input) && Running(input, base, v, ip, op, lit) && ip < |input| - 2 && |input| - 4 <= outLen
    requires Usable(input, base, ip, v)
    ensures (if lit == 0 then op - 1 else op) + 4 < outLen
    ensures ip >= 2 && (ip - 2) % 264 == 0 && (if lit == 0 then op - 1 else op) <= (if ip == 2 then 3 else Cost(ip))
  {
    RunUsable(input, base, v, ip, op, lit);
    if ip > 2 { CostRoom(ip, outLen); }
  }

  /** What is left for the last loop. */
  predicate Ending(input: seq<byte>, ip: int, op: int, lit: int) {
    Uniform(input) ==> |input| - (ip - lit) <= 4 && 0 < op - lit - 1 <= Cost(|input|)
  }

  lemma RunEnds(input: seq<byte>, base: nat, v: int, ip: nat, op: nat, lit: nat, outLen: nat)
    requires Running(input, base, v, ip, op, lit) && ip >= |input| - 2
    ensures Ending(input, ip, op, lit)
    ensures Uniform(input) && |input| - 4 <= outLen ==> op + 3 <= outLen
  {
  }

  // ------------------------------------------------------------------ the compressor

  /** After a match its last two places are entered into the table, and the running hash is set up behind them. */
  method EnterLast(input: seq<byte>, base: nat, ip: nat, htab: array<Pointer>) returns (hval: nat)
    requires 2 <= ip < |input| - 2 && base + |input| < WORD && htab.Length == HSIZE
    modifies htab
    ensures hval % 0x1_0000 == First(input, ip) && htab[Slot(input, ip - 1)] == base + (ip - 1)
    ensures Slot(input, ip - 2) != Slot(input, ip - 1) ==> htab[Slot(input, ip - 2)] == base + (ip - 2)
    ensures forall i :: 0 <= i < HSIZE && i != Slot(input, ip - 2) && i != Slot(input, ip - 1) ==>
              htab[i] == old(htab[i])
  {
    hide Idx, Next, First;
    FirstLow(input, ip - 2);
    hval := First(input, ip - 2);
    SlotOfThree(hval, input, ip - 2);
    hval := Next(hval, input, ip - 2);
    htab[Idx(hval)] := base + (ip - 2);
    SlotOfThree(hval, input, ip - 1);
    hval := Next(hval, input, ip - 1);
    htab[Idx(hval)] := base + (ip - 1);
  }

  lemma FirstLow(input: seq<byte>, ip: nat)
    requires ip + 1 < |input|
    ensures First(input, ip) % 0x1_0000 == First(input, ip)
  {
  }

  /** The state of the compressor at the head of its main loop: an open run, the running hash, and, for a run of one
      byte, how far it has come. */
  ghost predicate AtHead(input: seq<byte>, base: nat, out: seq<byte>, outLen: nat, htab: seq<Pointer>, hval: nat,
                         ip: nat, op: nat, lit: nat, ts: Tokens, v: int) {
    && Open(out, input, ts, ip, op, lit) && lit < MAX_LIT && op <= outLen + 1
    && |htab| == HSIZE
    && (ip + 2 < |input| ==> hval % 0x1_0000 == First(input, ip))
    && (Uniform(input) && |input| - 4 <= outLen ==>
          Running(input, base, v, ip, op, lit) && (ip + 2 < |input| ==> v == htab[Slot(input, ip)]))
  }

  /** What either branch of the main loop leaves behind. v is the content of the slot of the three bytes at ip. */
  ghost predicate AfterRound(input: seq<byte>, base: nat, out: seq<byte>, outLen: nat,
                             ip: nat, op: nat, lit: nat, ts: Tokens, v: int) {
    && Open(out, input, ts, ip, op, lit) && lit < MAX_LIT && op <= outLen + 1
    && (Uniform(input) && |input| - 4 <= outLen ==> Running(input, base, v, ip, op, lit))
  }

  /** The branch of a match, without the table. */
  method MatchBranch(input: seq<byte>, base: nat, out: array<byte>, outLen: nat, ref: Pointer, off: nat,
                     ip0: nat, op0: nat, lit0: nat, ghost ts0: Tokens)
    returns (ok: bool, ip: nat, op: nat, ghost ts: Tokens)
    requires AfterRound(input, base, out[..], outLen, ip0, op0, lit0, ts0, ref) && ip0 + 2 < |input|
    requires Usable(input, base, ip0, ref) && ref == base + (ip0 - off - 1) && out.Length == outLen + 1
    requires off < MAX_OFF && off < ip0 && ip0 + 4 < |input| && Same(input, ip0 - off - 1, ip0, 3)
    modifies out
    ensures ok ==> ip0 < ip && 2 <= ip && AfterRound(input, base, out[..], outLen, ip, op, 0, ts, base + ip - 1)
    ensures !ok ==> op0 + 5 > outLen && !(Uniform(input) && |input| - 4 <= outLen)
  {
    hide Open, Closed, Same, Running, Usable, Uniform, Cost, Limit, Worst;
    ok, ip, op, ts := PutMatch(input, ip0, off, out, op0, lit0, ts0);
    if ok { OpenBounds(out[..], input, ts, ip, op, 0); }
    if Uniform(input) && |input| - 4 <= outLen {
      RunMatched(input, base, ref, ip0, op0, lit0, outLen, ok, ip, op, off);
    }
  }

  /** The branch of a literal. */
  method LiteralBranch(input: seq<byte>, base: nat, out: array<byte>, outLen: nat, ghost ref: Pointer,
                       ip0: nat, op0: nat, lit0: nat, ghost ts0: Tokens)
    returns (ok: bool, ip: nat, op: nat, lit: nat, ghost ts: Tokens)
    requires AfterRound(input, base, out[..], outLen, ip0, op0, lit0, ts0, ref) && ip0 + 2 < |input|
    requires !Usable(input, base, ip0, ref) && out.Length == outLen + 1
    modifies out
    ensures ok ==> ip == ip0 + 1 && AfterRound(input, base, out[..], outLen, ip, op, lit, ts, base + ip - 1)
    ensures !ok ==> op0 + 5 > outLen && !(Uniform(input) && |input| - 4 <= outLen)
  {
    hide Open, Closed, Running, Usable, Uniform, Cost, Worst;
    OpenBounds(out[..], input, ts0, ip0, op0, lit0);
    if Uniform(input) && |input| - 4 <= outLen {
      RunLiteral(input, base, ref, ip0, op0, lit0, outLen);
    }
    ok, ip, op, lit, ts := true, ip0, op0, lit0, ts0;
    if op >= outLen { ok := false; return; }
    ip, op, lit, ts := PutLiteral(input, ip, out, op, lit, ts);
    OpenBounds(out[..], input, ts, ip, op, lit);
  }

  /** One round of the main loop. ok is false where the source returns 0. */
  method Round(input: seq<byte>, base: nat, out: array<byte>, outLen: nat, htab: array<Pointer>, hval0: nat,
               ip0: nat, op0: nat, lit0: nat, ghost ts0: Tokens, ghost v0: int)
    returns (ok: bool, hval: nat, ip: nat, op: nat, lit: nat, ghost ts: Tokens, ghost v: int)
    requires MAX_OFF <= base && base + |input| < WORD && out.Length == outLen + 1
    requires AtHead(input, base, out[..], outLen, htab[..], hval0, ip0, op0, lit0, ts0, v0) && ip0 + 2 < |input|
    modifies out, htab
    ensures ok ==> ip0 < ip && AtHead(input, base, out[..], outLen, htab[..], hval, ip, op, lit, ts, v)
    ensures !ok ==> op0 + 5 > outLen && !(Uniform(input) && |input| - 4 <= outLen)
  {
    hide Open, Closed, Same, Running, Usable, Uniform, Cost, Idx, Next, First, Limit, Slot, Worst;
    lit, v := lit0, 0;
    SlotOfThree(hval0, input, ip0);
    hval := Next(hval0, input, ip0);
    var ref := htab[Idx(hval)];
    htab[Idx(hval)] := base + ip0;
    var found, off := Probe(input, base, ip0, ref);
    if found {
      ok, ip, op, ts := MatchBranch(input, base, out, outLen, ref, off, ip0, op0, lit0, ts0);
      if !ok { return; }
      lit, v := 0, base + ip - 1;
      if ip >= |input| - 2 { return; }
      hval := EnterLast(input, base, ip, htab);
    } else {
      ok, ip, op, lit, ts := LiteralBranch(input, base, out, outLen, ref, ip0, op0, lit0, ts0);
      if !ok { return; }
      v := base + ip - 1;
    }
    if Uniform(input) && ip + 2 < |input| { OneSlot(input, ip - 1, ip); }
  }

  lemma OpenBounds(out: seq<byte>, input: seq<byte>, ts: Tokens, ip: int, op: int, lit: int)
    requires Open(out, input, ts, ip, op, lit)
    ensures 0 <= lit <= MAX_LIT && lit < op <= |out| && lit <= ip <= |input| && op - lit - 1 <= Worst(ip - lit)
  {
  }

  /** The bytes that are left when no match can begin any more, and the end of the last run. */
  method LastLiterals(input: seq<byte>, out: array<byte>, outLen: nat, ip0: nat, op0: nat, lit0: nat, ghost ts0: Tokens)
    returns (r: nat)
    requires Open(out[..], input, ts0, ip0, op0, lit0) && lit0 < MAX_LIT && |input| - 2 <= ip0 && 0 < |input|
    requires out.Length == outLen + 1 && op0 + 3 <= outLen
    modifies out
    ensures 0 < r <= outLen && Compressed(out[..r], input) && r <= |input| + (|input| + 31) / 32
    ensures Uniform(input) && Ending(input, ip0, op0, lit0) ==> r <= 8 + 3 * ((|input| + 261) / 264)
  {
    hide Closed, Uniform, Ending, Cost, Compressed;
    ghost var run := Uniform(input) && Ending(input, ip0, op0, lit0);
    var ip, op, lit := ip0, op0, lit0;
    ghost var ts := ts0;
    while ip < |input|
      invariant Open(out[..], input, ts, ip, op, lit) && lit < MAX_LIT
      invariant op + (|input| - ip) + (if lit + (|input| - ip) >= MAX_LIT then 1 else 0) <= outLen
      invariant run ==> Ending(input, ip, op, lit)
    {
      if run { FewLiterals(input, ip, op, lit); }
      ip, op, lit, ts := PutLiteral(input, ip, out, op, lit, ts);
    }
    if run { FewLiterals(input, ip, op, lit); }
    op, ts := StopRun(out, op, lit, input, ip, ts);
    ClosedIsCompressed(out[..], input, ts, op);
    r := op;
  }

  /** lzf_compress on an output buffer of outLen bytes, to which rdb.c adds one. 0 when
      the result does not fit; otherwise its length. */
  method LzfCompress(input: seq<byte>, base: nat, out: array<byte>, outLen: nat, htab: array<Pointer>) returns (r: nat)
    requires |input| != 1 && MAX_OFF <= base && base + |input| < WORD
    requires out.Length == outLen + 1 && htab.Length == HSIZE
    modifies out, htab
    ensures r > 0 ==> r <= outLen && Compressed(out[..r], input)
    ensures r <= |input| + (|input| + 31) / 32
    ensures 0 < |input| && |input| + |input| / 32 + 4 <= outLen ==> r > 0
    ensures Uniform(input) && |input| - 4 <= outLen ==> 0 < r <= 8 + 3 * ((|input| + 261) / 264)
  {
    hide Closed, Same, Running, Uniform, Cost, Ending, First;
    if |input| == 0 || outLen == 0 {
      NotUniform(input);
      return 0;
    }
    ghost var run := Uniform(input) && |input| - 4 <= outLen;
    var ip: nat, op: nat, lit: nat := 0, 1, 0;
    ghost var ts, v := Empty, if |input| > 2 then htab[Slot(input, 0)] else 0;
    NothingClosed(out[..], input);
    var hval := First(input, ip);
    FirstLow(input, ip);
    RunStarts(input, base, v);
    while ip < |input| - 2
      invariant AtHead(input, base, out[..], outLen, htab[..], hval, ip, op, lit, ts, v)
      decreases |input| - ip
    {
      var ok;
      ok, hval, ip, op, lit, ts, v := Round(input, base, out, outLen, htab, hval, ip, op, lit, ts, v);
      if !ok { return 0; }
    }
    if run { RunEnds(input, base, v, ip, op, lit, outLen); }
    HeadOpen(input, base, out[..], outLen, htab[..], hval, ip, op, lit, ts, v);
    if op + 3 > outLen { return 0; }
    r := LastLiterals(input, out, outLen, ip, op, lit, ts);
  }

  lemma HeadOpen(input: seq<byte>, base: nat, out: seq<byte>, outLen: nat, htab: seq<Pointer>, hval: nat,
                 ip: nat, op: nat, lit: nat, ts: Tokens, v: int)
    requires AtHead(input, base, out, outLen, htab, hval, ip, op, lit, ts, v)
    ensures Open(out, input, ts, ip, op, lit) && lit < MAX_LIT && lit < op <= |out| && ip <= |input|
    ensures op - lit - 1 <= Worst(ip - lit)
  {
    hide Closed;
  }

  lemma NotUniform(input: seq<byte>)
    ensures |input| < 20 ==> !Uniform(input)
  {
  }

  lemma RunStarts(input: seq<byte>, base: nat, v: int)
    ensures Running(input, base, v, 0, 1, 0)
  {
  }

  lemma OneSlot(input: seq<byte>, i: nat, j: nat)
    requires Uniform(input) && i + 2 < |input| && j + 2 < |input|
    ensures Slot(input, i) == Slot(input, j)
  {
    SameSlot(input, i);
    SameSlot(input, j);
  }

  /** PutMatch on such a run. */
  lemma RunMatched(input: seq<byte>, base: nat, v: Pointer, ip: nat, op: nat, lit: nat, outLen: nat,
                   ok: bool, ip': nat, op': nat, off: nat)
    requires Uniform(input) && Running(input, base, v, ip, op, lit) && ip < |input| - 2 && |input| - 4 <= outLen
    requires Usable(input, base, ip, v) && v == base + (ip - off - 1)
    requires ok <==> (if lit == 0 then op - 1 else op) + 4 < outLen
    requires ok ==> ip + 3 <= ip' <= |input| && ip' - ip <= MAX_REF && off < ip'
    requires ok ==> ip' - ip >= Limit(input, ip) || ip' >= |input| || input[ip' - off - 1] != input[ip']
    requires ok ==> 3 <= op' - (if lit == 0 then op - 1 else op) <= 4
    ensures ok && Running(input, base, base + ip' - 1, ip', op', 0)
    ensures ip' >= |input| - 2 ==> Running(input, base, 0, ip', op', 0)
  {
    hide Usable, Cost;
    RunMatch(input, base, v, ip, op, lit, outLen);
    CostMore(ip, ip' - ip);
  }

  lemma FewLiterals(input: seq<byte>, ip: nat, op: nat, lit: nat)
    requires Uniform(input) && Ending(input, ip, op, lit) && ip <= |input|
    ensures ip < |input| ==> lit < 4 && Ending(input, ip + 1, op + 1, lit + 1)
    ensures 1 < op && lit <= 4 && op <= 5 + Cost(|input|) && op - 1 <= 5 + Cost(|input|)
    ensures Cost(|input|) == 3 + 3 * ((|input| + 261) / 264)
  {
  }

  /** Whatever the hash table holds and whatever the room: what was compressed comes back. */
  method RoundTrip(input: seq<byte>, base: nat, outLen: nat, htab: array<Pointer>) returns (r: nat, output: array<byte>)
    requires |input| > 1 && MAX_OFF <= base && base + |input| < WORD && htab.Length == HSIZE
    modifies htab
    ensures r > 0 ==> output[..] == input
    ensures r <= outLen && r <= |input| + (|input| + 31) / 32
    ensures |input| + |input| / 32 + 4 <= outLen ==> r > 0
    ensures Uniform(input) && |input| - 4 <= outLen ==> 0 < r <= 8 + 3 * ((|input| + 261) / 264)
  {
    hide Compressed, Decompress, Uniform;
    var out := new byte[outLen + 1];
    r := LzfCompress(input, base, out, outLen, htab);
    output := new byte[|input|];
    if r > 0 {
      DecompressExact(out[..r], input, |input|);
      var n := LzfDecompress(out[..r], output);
    }
  }

  /** Two literals, and three bytes copied from two bytes back. */
  lemma FormByExample()
    ensures Decompress([0x01, 97, 98, 0x20, 0x01], 5) == Some([97, 98, 97, 98, 97])
  {
    hide CopyBack;
    var c: seq<byte> := [0x01, 97, 98, 0x20, 0x01];
    assert c[1..3] == [97, 98];
    DecodeStep(c, 0, [], 5);
    assert [] + [97 as byte, 98] == [97, 98];
    CopyThree();
    DecodeStep(c, 3, [97, 98], 5);
  }

  lemma CopyThree()
    ensures CopyBack([97, 98], 1, 3) == [97, 98, 97, 98, 97]
  {
    assert [97 as byte, 98] + [97] == [97, 98, 97];
    assert [97 as byte, 98, 97] + [98] == [97, 98, 97, 98];
    assert [97 as byte, 98, 97, 98] + [97] == [97, 98, 97, 98, 97];
    assert CopyBack([97, 98, 97, 98], 1, 1) == CopyBack([97, 98, 97, 98, 97], 1, 0);
    assert CopyBack([97, 98, 97], 1, 2) == CopyBack([97, 98, 97, 98], 1, 1);
  }
}
