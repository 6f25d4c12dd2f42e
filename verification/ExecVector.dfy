/**
The argument vectors that exec passes between the kernel (arch/x86_64/user.c)
and the Linux server (user/linux/exec_abi.c) in a shared buffer.

Both sides have a serializer and a deserializer for one wire format.  They
differ in one thing: the server measures strings with a function that stops
counting after 4096 bytes (user/linux/main.c).  The theorems say what one side
decodes of what the other wrote, for all vectors: the same vector, unless the
server wrote a longer string, and then nothing.
*/
module ExecVectors {
  import opened Common

  const MAX_STRING := 131072
  const MAX_STRING_BYTES := 393216
  const MAX_ENTRIES := 49152
  const MAX_PATH := 4096
  const SHEBANG_MAX := 256
  const BUFFER_SIZE := MAX_PATH + SHEBANG_MAX + MAX_STRING_BYTES + MAX_ENTRIES * 8 + 16

  type Byte = x: nat | x < 256

  datatype Side = Kernel | Server

  datatype Args = Args(argv: seq<seq<Byte>>, envp: seq<seq<Byte>>)

  // ----- numbers

  function Bytes(n: nat, k: nat): (b: seq<Byte>)
    ensures |b| == k
  {
    if k == 0 then [] else [n % 256] + Bytes(n / 256, k - 1)
  }

  function Value(b: seq<Byte>): nat {
    if b == [] then 0 else b[0] + 256 * Value(b[1..])
  }

  function Power(k: nat): nat {
    if k == 0 then 1 else 256 * Power(k - 1)
  }

  lemma {:induction false} ValueOfBytes(n: nat, k: nat)
    requires n < Power(k)
    ensures Value(Bytes(n, k)) == n
  {
    if k > 0 {
      ValueOfBytes(n / 256, k - 1);
      assert Bytes(n, k)[1..] == Bytes(n / 256, k - 1);
    }
  }

  lemma {:induction false} BytesOfValue(b: seq<Byte>)
    ensures Bytes(Value(b), |b|) == b
  {
    if b != [] {
      BytesOfValue(b[1..]);
      assert Value(b) % 256 == b[0] && Value(b) / 256 == Value(b[1..]);
    }
  }

  /** A 64-bit number in memory order. */
  function Word(n: nat): (b: seq<Byte>)
    ensures |b| == 8
  {
    Bytes(n, 8)
  }

  lemma ValueOfWord(n: nat)
    requires n < 0x100_0000
    ensures Value(Word(n)) == n
  {
    assert Power(3) == 0x100_0000 && Power(8) == Power(3) * 256 * 256 * 256 * 256 * 256 by {
      assert Power(4) == 256 * Power(3) && Power(5) == 256 * Power(4) && Power(6) == 256 * Power(5);
      assert Power(7) == 256 * Power(6) && Power(8) == 256 * Power(7);
    }
    ValueOfBytes(n, 8);
  }

  // ----- the wire format

  predicate IsText(s: seq<Byte>) {
    forall i :: 0 <= i < |s| ==> s[i] != 0
  }

  predicate AllText(ss: seq<seq<Byte>>) {
    forall i :: 0 <= i < |ss| ==> IsText(ss[i])
  }

  /** str_len in the kernel, string_len in the server. */
  function Measured(side: Side, s: seq<Byte>): nat {
    if side.Server? && |s| > MAX_PATH then MAX_PATH else |s|
  }

  function EncodeOne(side: Side, s: seq<Byte>): seq<Byte> {
    Word(Measured(side, s) + 1) + (s + [0])[..Measured(side, s) + 1]
  }

  function EncodeMany(side: Side, ss: seq<seq<Byte>>): seq<Byte> {
    if ss == [] then [] else EncodeOne(side, ss[0]) + EncodeMany(side, ss[1..])
  }

  function Encode(side: Side, args: Args): seq<Byte> {
    Word(|args.argv|) + Word(|args.envp|) + EncodeMany(side, args.argv) + EncodeMany(side, args.envp)
  }

  /** The bytes that a side counts for strings with their terminators. */
  function Weight(side: Side, ss: seq<seq<Byte>>): nat {
    if ss == [] then 0 else Measured(side, ss[0]) + 1 + Weight(side, ss[1..])
  }

  /** A string up to its first zero byte. */
  function UpToZero(s: seq<Byte>): seq<Byte> {
    if s == [] || s[0] == 0 then [] else [s[0]] + UpToZero(s[1..])
  }

  /** Strings read and the bytes that follow them. */
  datatype Decoded = Decoded(strings: seq<seq<Byte>>, rest: seq<Byte>)

  function DecodeOne(w: seq<Byte>): Option<Decoded> {
    if |w| < 8 then None
    else
      var n := Value(w[..8]);
      if n == 0 || n > MAX_STRING || 8 + n > |w| || w[8 + n - 1] != 0 then None
      else Some(Decoded([UpToZero(w[8..8 + n])], w[8 + n..]))
  }

  function DecodeMany(w: seq<Byte>, k: nat): Option<Decoded>
    decreases k
  {
    if k == 0 then Some(Decoded([], w))
    else
      var first := DecodeOne(w);
      if first.None? then None else Prepend(first.value.strings, DecodeMany(first.value.rest, k - 1))
  }

  function Prepend(ss: seq<seq<Byte>>, rest: Option<Decoded>): Option<Decoded> {
    if rest.None? then None else Some(Decoded(ss + rest.value.strings, rest.value.rest))
  }

  function Decode(side: Side, w: seq<Byte>): Option<Args> {
    if |w| < 16 then None
    else
      var argc, envc := Value(w[..8]), Value(w[8..16]);
      if argc == 0 || argc > MAX_ENTRIES || envc > MAX_ENTRIES then None
      else
        var argv := DecodeMany(w[16..], argc);
        if argv.None? then None
        else
          var envp := DecodeMany(argv.value.rest, envc);
          if envp.None? || envp.value.rest != []
             || Weight(side, argv.value.strings) + Weight(side, envp.value.strings) > MAX_STRING_BYTES
          then None
          else Some(Args(argv.value.strings, envp.value.strings))
  }

  // ----- one side reads what the other wrote

  predicate Small(side: Side, ss: seq<seq<Byte>>) {
    forall i :: 0 <= i < |ss| ==> Measured(side, ss[i]) + 1 <= MAX_STRING
  }

  lemma {:induction false} UpToZeroOfText(s: seq<Byte>)
    requires IsText(s)
    ensures UpToZero(s + [0]) == s
  {
    if s != [] {
      UpToZeroOfText(s[1..]);
      assert (s + [0])[1..] == s[1..] + [0];
    }
  }

  /** A string is read back if it was written whole, and refused if it was cut. */
  lemma DecodeEncodedOne(side: Side, s: seq<Byte>, t: seq<Byte>)
    requires IsText(s) && Measured(side, s) + 1 <= MAX_STRING
    ensures DecodeOne(EncodeOne(side, s) + t) == if Measured(side, s) == |s| then Some(Decoded([s], t)) else None
  {
    var n, w := Measured(side, s) + 1, EncodeOne(side, s) + t;
    assert w[..8] == Word(n);
    ValueOfWord(n);
    assert w[8..8 + n] == (s + [0])[..n] && w[8 + n..] == t;
    assert w[8 + n - 1] == (s + [0])[n - 1];
    if n - 1 == |s| {
      assert (s + [0])[..n] == s + [0];
      UpToZeroOfText(s);
    }
  }

  /** Every string is written whole. */
  predicate Whole(side: Side, ss: seq<seq<Byte>>) {
    forall i :: 0 <= i < |ss| ==> Measured(side, ss[i]) == |ss[i]|
  }

  lemma {:induction false} DecodeWhole(side: Side, ss: seq<seq<Byte>>, t: seq<Byte>)
    requires AllText(ss) && Small(side, ss) && Whole(side, ss)
    ensures DecodeMany(EncodeMany(side, ss) + t, |ss|) == Some(Decoded(ss, t))
    decreases |ss|
  {
    if ss == [] {
      assert EncodeMany(side, ss) + t == t;
    } else {
      var e, rest := EncodeOne(side, ss[0]), EncodeMany(side, ss[1..]);
      assert EncodeMany(side, ss) + t == e + (rest + t);
      DecodeEncodedOne(side, ss[0], rest + t);
      DecodeWhole(side, ss[1..], t);
      DecodeStep(e + (rest + t), ss, rest + t, t);
    }
  }

  lemma DecodeStep(w: seq<Byte>, ss: seq<seq<Byte>>, middle: seq<Byte>, t: seq<Byte>)
    requires ss != [] && DecodeOne(w) == Some(Decoded([ss[0]], middle))
    requires DecodeMany(middle, |ss[1..]|) == Some(Decoded(ss[1..], t))
    ensures DecodeMany(w, |ss|) == Some(Decoded(ss, t))
  {
    assert [ss[0]] + ss[1..] == ss;
  }

  lemma CutInTail(side: Side, ss: seq<seq<Byte>>)
    requires ss != [] && !Whole(side, ss) && Measured(side, ss[0]) == |ss[0]|
    ensures !Whole(side, ss[1..])
  {
    var i :| 0 <= i < |ss| && Measured(side, ss[i]) != |ss[i]|;
    assert ss[1..][i - 1] == ss[i];
  }

  lemma {:induction false} DecodeCut(side: Side, ss: seq<seq<Byte>>, t: seq<Byte>)
    requires AllText(ss) && Small(side, ss) && !Whole(side, ss)
    ensures DecodeMany(EncodeMany(side, ss) + t, |ss|).None?
    decreases |ss|
  {
    if ss != [] {
      var e, rest := EncodeOne(side, ss[0]), EncodeMany(side, ss[1..]);
      assert EncodeMany(side, ss) + t == e + (rest + t);
      DecodeEncodedOne(side, ss[0], rest + t);
      if Measured(side, ss[0]) == |ss[0]| {
        CutInTail(side, ss);
        DecodeCut(side, ss[1..], t);
      }
    }
  }

  /** What the serializer of a side accepts at a given offset of the shared buffer. */
  predicate Fits(side: Side, args: Args, offset: nat) {
    && 0 < |args.argv| <= MAX_ENTRIES && |args.envp| <= MAX_ENTRIES
    && Small(side, args.argv) && Small(side, args.envp)
    && Weight(side, args.argv) + Weight(side, args.envp) <= MAX_STRING_BYTES
    && offset + |Encode(side, args)| <= BUFFER_SIZE
  }

  predicate TextArgs(args: Args) {
    AllText(args.argv) && AllText(args.envp)
  }

  lemma {:induction false} WeightOfWhole(side: Side, other: Side, ss: seq<seq<Byte>>)
    requires Whole(side, ss)
    ensures Weight(other, ss) <= Weight(side, ss)
  {
    if ss != [] {
      WeightOfWhole(side, other, ss[1..]);
    }
  }

  lemma EncodeParts(side: Side, args: Args)
    ensures
      var w, a, b := Encode(side, args), EncodeMany(side, args.argv), EncodeMany(side, args.envp);
      && |w| >= 16 && w[..8] == Word(|args.argv|) && w[8..16] == Word(|args.envp|)
      && w[16..] == a + b && b == b + []
  {
  }

  /**
   * Whatever one side serializes, the other decodes to the same vector exactly when no string was cut: always for the
   * kernel, and for the server when no string is longer than it measures.  A vector with a string cut is refused.
   */
  lemma RoundTripIff(from: Side, to: Side, args: Args, offset: nat)
    requires TextArgs(args) && Fits(from, args, offset)
    ensures Decode(to, Encode(from, args))
         == if Whole(from, args.argv) && Whole(from, args.envp) then Some(args) else None
  {
    var w, a, b := Encode(from, args), EncodeMany(from, args.argv), EncodeMany(from, args.envp);
    EncodeParts(from, args);
    ValueOfWord(|args.argv|);
    ValueOfWord(|args.envp|);
    if !Whole(from, args.argv) {
      DecodeCut(from, args.argv, b);
    } else {
      DecodeWhole(from, args.argv, b);
      WeightOfWhole(from, to, args.argv);
      if Whole(from, args.envp) {
        DecodeWhole(from, args.envp, []);
        WeightOfWhole(from, to, args.envp);
      } else {
        DecodeCut(from, args.envp, []);
      }
    }
  }

  lemma WholeIff(side: Side, ss: seq<seq<Byte>>)
    ensures Whole(side, ss) <==> side.Kernel? || forall i :: 0 <= i < |ss| ==> |ss[i]| <= MAX_PATH
  {
    if side.Server? && Whole(side, ss) {
      forall i | 0 <= i < |ss|
        ensures |ss[i]| <= MAX_PATH
      {
        assert Measured(side, ss[i]) == |ss[i]|;
      }
    }
  }

  // ----- writing what was read

  lemma {:induction false} UpToZeroIs(s: seq<Byte>)
    ensures IsText(UpToZero(s)) && |UpToZero(s)| <= |s| && UpToZero(s) == s[..|UpToZero(s)|]
    ensures |UpToZero(s)| < |s| ==> s[|UpToZero(s)|] == 0
  {
    if s == [] || s[0] == 0 {
    } else {
      UpToZeroIs(s[1..]);
      var t := UpToZero(s[1..]);
      assert s[1..][..|t|] == s[1..|t| + 1];
      assert [s[0]] + s[1..|t| + 1] == s[..|t| + 1];
    }
  }

  /** No zero byte inside any of the first `k` strings of `w`. */
  predicate NoZeroInside(w: seq<Byte>, k: nat)
    decreases k
  {
    k == 0 || DecodeOne(w).None? || (
      var n := Value(w[..8]);
      n >= 1 && 8 + n <= |w| && IsText(w[8..8 + n - 1]) && NoZeroInside(w[8 + n..], k - 1))
  }

  lemma BodyText(body: seq<Byte>)
    requires |body| >= 1 && body[|body| - 1] == 0
    ensures IsText(UpToZero(body)) && |UpToZero(body)| <= |body| - 1
    ensures |UpToZero(body)| == |body| - 1 <==> IsText(body[..|body| - 1])
    ensures |UpToZero(body)| == |body| - 1 ==> UpToZero(body) + [0] == body
  {
    UpToZeroIs(body);
    var n := |UpToZero(body)|;
    if n < |body| - 1 {
      assert body[..|body| - 1][n] == 0;
    }
  }

  lemma EncodeDecodedOne(w: seq<Byte>)
    requires DecodeOne(w).Some?
    ensures
      var s, n := DecodeOne(w).value.strings[0], Value(w[..8]);
      && IsText(s) && |EncodeOne(Kernel, s)| <= 8 + n
      && (|EncodeOne(Kernel, s)| == 8 + n <==> IsText(w[8..8 + n - 1]))
      && (IsText(w[8..8 + n - 1]) ==> EncodeOne(Kernel, s) == w[..8 + n])
  {
    var n := Value(w[..8]);
    Slices(w, n);
    BodyText(w[8..8 + n]);
    BytesOfValue(w[..8]);
    var s := UpToZero(w[8..8 + n]);
    assert DecodeOne(w).value.strings[0] == s;
    EncodedOneIs(s);
  }

  lemma EncodedOneIs(s: seq<Byte>)
    ensures EncodeOne(Kernel, s) == Word(|s| + 1) + (s + [0]) && |EncodeOne(Kernel, s)| == 8 + |s| + 1
  {
    assert (s + [0])[..|s| + 1] == s + [0];
  }

  lemma Slices(w: seq<Byte>, n: nat)
    requires 1 <= n && 8 + n <= |w|
    ensures w[8..8 + n][..n - 1] == w[8..8 + n - 1] && w[8..8 + n][n - 1] == w[8 + n - 1]
    ensures w[..8 + n] == w[..8] + w[8..8 + n] && |w[8..8 + n]| == n
  {
  }

  lemma {:induction false} DecodedText(w: seq<Byte>, k: nat)
    requires DecodeMany(w, k).Some?
    ensures |DecodeMany(w, k).value.strings| == k && AllText(DecodeMany(w, k).value.strings)
    decreases k
  {
    if k > 0 {
      var first := DecodeOne(w).value;
      EncodeDecodedOne(w);
      DecodedText(first.rest, k - 1);
      ConsLength(first.strings[0], DecodeMany(first.rest, k - 1).value.strings);
    }
  }

  /** The room that encoding takes, and the room that what was read took. */
  ghost function Gain(w: seq<Byte>, k: nat): int
    requires DecodeMany(w, k).Some?
  {
    |w| - |DecodeMany(w, k).value.rest| - |EncodeMany(Kernel, DecodeMany(w, k).value.strings)|
  }

  lemma GainStep(w: seq<Byte>, k: nat)
    requires k > 0 && DecodeMany(w, k).Some?
    ensures
      var first, n := DecodeOne(w).value, Value(w[..8]);
      Gain(w, k) == (8 + n - |EncodeOne(Kernel, first.strings[0])|) + Gain(first.rest, k - 1)
  {
    var first := DecodeOne(w).value;
    ConsLength(first.strings[0], DecodeMany(first.rest, k - 1).value.strings);
  }

  /** Encoding what was read never takes more room, and takes the same room only if no string has a zero inside. */
  lemma {:induction false} DecodedLength(w: seq<Byte>, k: nat)
    requires DecodeMany(w, k).Some?
    ensures Gain(w, k) >= 0 && (Gain(w, k) == 0 <==> NoZeroInside(w, k))
    decreases k
  {
    if k > 0 {
      GainStep(w, k);
      DecodedLength(DecodeOne(w).value.rest, k - 1);
      EncodeDecodedOne(w);
    }
  }

  lemma ConsLength(s: seq<Byte>, ss: seq<seq<Byte>>)
    ensures EncodeMany(Kernel, [s] + ss) == EncodeOne(Kernel, s) + EncodeMany(Kernel, ss)
    ensures IsText(s) && AllText(ss) ==> AllText([s] + ss)
  {
    assert ([s] + ss)[1..] == ss;
  }

  lemma {:induction false} EncodeDecodedMany(w: seq<Byte>, k: nat)
    requires DecodeMany(w, k).Some? && NoZeroInside(w, k)
    ensures EncodeMany(Kernel, DecodeMany(w, k).value.strings) + DecodeMany(w, k).value.rest == w
    decreases k
  {
    if k > 0 {
      EncodeDecodedOne(w);
      var first, n := DecodeOne(w).value, Value(w[..8]);
      EncodeDecodedMany(first.rest, k - 1);
      var others := DecodeMany(first.rest, k - 1).value;
      ConsLength(first.strings[0], others.strings);
      Join(w, 8 + n, EncodeOne(Kernel, first.strings[0]), EncodeMany(Kernel, others.strings), others.rest);
    }
  }

  lemma Join(w: seq<Byte>, cut: nat, a: seq<Byte>, b: seq<Byte>, c: seq<Byte>)
    requires cut <= |w| && w[..cut] == a && w[cut..] == b + c
    ensures (a + b) + c == w
  {
    assert w == w[..cut] + w[cut..];
  }

  /** No zero byte inside any string of the vector `w`. */
  predicate Canonical(w: seq<Byte>) {
    && |w| >= 16 && NoZeroInside(w[16..], Value(w[..8]))
    && (DecodeMany(w[16..], Value(w[..8])).Some? ==>
          NoZeroInside(DecodeMany(w[16..], Value(w[..8])).value.rest, Value(w[8..16])))
  }

  /** Encoding a decoded vector gives its bytes back exactly when none of its strings has a zero byte inside. */
  lemma ReencodeIff(side: Side, w: seq<Byte>)
    requires Decode(side, w).Some?
    ensures TextArgs(Decode(side, w).value)
    ensures Encode(Kernel, Decode(side, w).value) == w <==> Canonical(w)
  {
    var args, argc, envc := Decode(side, w).value, Value(w[..8]), Value(w[8..16]);
    var argv := DecodeMany(w[16..], argc).value;
    DecodedText(w[16..], argc);
    DecodedText(argv.rest, envc);
    DecodedLength(w[16..], argc);
    DecodedLength(argv.rest, envc);
    EncodeParts(Kernel, args);
    if Canonical(w) {
      EncodeDecodedMany(w[16..], argc);
      EncodeDecodedMany(argv.rest, envc);
      ReencodeParts(w, args);
    }
  }

  lemma ReencodeParts(w: seq<Byte>, args: Args)
    requires |w| >= 16 && |args.argv| == Value(w[..8]) && |args.envp| == Value(w[8..16])
    requires w[16..] == EncodeMany(Kernel, args.argv) + EncodeMany(Kernel, args.envp)
    ensures Encode(Kernel, args) == w
  {
    BytesOfValue(w[..8]);
    BytesOfValue(w[8..16]);
    EncodedSize(Kernel, args);
    Split(w);
  }

  lemma Split(w: seq<Byte>)
    requires |w| >= 16
    ensures w == (w[..8] + w[8..16]) + w[16..]
  {
  }

  // ----- serializing

  datatype Status = Ok | Invalid | TooBig | NoMemory

  lemma {:induction false} EncodeAppend(side: Side, ss: seq<seq<Byte>>, s: seq<Byte>)
    ensures EncodeMany(side, ss + [s]) == EncodeMany(side, ss) + EncodeOne(side, s)
    ensures Weight(side, ss + [s]) == Weight(side, ss) + Measured(side, s) + 1
  {
    if ss == [] {
      assert [] + [s] == [s];
      assert EncodeMany(side, [s]) == EncodeOne(side, s) + EncodeMany(side, [s][1..]);
    } else {
      EncodeAppend(side, ss[1..], s);
      assert (ss + [s])[1..] == ss[1..] + [s];
    }
  }

  lemma {:induction false} EncodeJoin(side: Side, a: seq<seq<Byte>>, b: seq<seq<Byte>>)
    ensures |EncodeMany(side, a + b)| == |EncodeMany(side, a)| + |EncodeMany(side, b)|
    ensures Weight(side, a + b) == Weight(side, a) + Weight(side, b)
  {
    if a == [] {
      assert [] + b == b;
    } else {
      EncodeJoin(side, a[1..], b);
      assert (a + b)[1..] == a[1..] + b;
    }
  }

  /** A longer prefix takes no more room than all strings. */
  lemma PrefixFits(side: Side, ss: seq<seq<Byte>>, n: nat, next: nat)
    requires next == n + 1 <= |ss|
    ensures EncodeMany(side, ss[..next]) == EncodeMany(side, ss[..n]) + EncodeOne(side, ss[n])
    ensures Weight(side, ss[..next]) == Weight(side, ss[..n]) + Measured(side, ss[n]) + 1
    ensures |EncodeMany(side, ss[..next])| <= |EncodeMany(side, ss)| && Weight(side, ss[..next]) <= Weight(side, ss)
  {
    EncodeAppend(side, ss[..n], ss[n]);
    assert ss[..n] + [ss[n]] == ss[..next];
    EncodeJoin(side, ss[..next], ss[next..]);
    assert ss[..next] + ss[next..] == ss;
  }

  /** `now` is `was` with `data` put at `offset`. */
  ghost predicate Written(was: seq<Byte>, now: seq<Byte>, offset: nat, data: seq<Byte>) {
    && offset + |data| <= |was| == |now|
    && forall i :: 0 <= i < |was| ==> now[i] == if offset <= i < offset + |data| then data[i - offset] else was[i]
  }

  /** buffer_write inside the buffer. */
  method Write(buffer: array<Byte>, offset: nat, data: seq<Byte>)
    requires offset + |data| <= buffer.Length
    modifies buffer
    ensures Written(old(buffer[..]), buffer[..], offset, data)
  {
    forall i | 0 <= i < |data| {
      buffer[offset + i] := data[i];
    }
  }

  /** linux_exec_serialize_one */
  method SerializeOne(side: Side, buffer: array<Byte>, offset: nat, s: seq<Byte>, bytes: nat)
    returns (r: Status, offset': nat, bytes': nat)
    requires buffer.Length == BUFFER_SIZE
    modifies buffer
    ensures r.Ok? <==>
            && Measured(side, s) + 1 <= MAX_STRING && bytes + Measured(side, s) + 1 <= MAX_STRING_BYTES
            && offset + |EncodeOne(side, s)| <= BUFFER_SIZE
    ensures r.Ok? ==> offset' == offset + |EncodeOne(side, s)| && bytes' == bytes + Measured(side, s) + 1
    ensures r.Ok? ==> Written(old(buffer[..]), buffer[..], offset, EncodeOne(side, s))
    ensures !r.Ok? ==> buffer[..] == old(buffer[..])
  {
    var len := Measured(side, s) + 1;
    if len > MAX_STRING || bytes + len > MAX_STRING_BYTES || offset + 8 + len > BUFFER_SIZE {
      return TooBig, offset, bytes;
    }
    ghost var was := buffer[..];
    Write(buffer, offset, Word(len));
    ghost var middle := buffer[..];
    Write(buffer, offset + 8, (s + [0])[..len]);
    Extended(was, middle, buffer[..], offset, Word(len), (s + [0])[..len]);
    return Ok, offset + 8 + len, bytes + len;
  }

  /** What a side can write at `offset` after strings that took `bytes`. */
  predicate RoomFor(side: Side, ss: seq<seq<Byte>>, offset: nat, bytes: nat) {
    && Small(side, ss) && bytes + Weight(side, ss) <= MAX_STRING_BYTES
    && offset + |EncodeMany(side, ss)| <= BUFFER_SIZE
  }

  /** Strings `ss[..n]` are in the buffer from `offset` to `p`, and took the bytes from `bytes` to `bytes'`. */
  ghost predicate Holding(side: Side, was: seq<Byte>, now: seq<Byte>, offset: nat, bytes: nat, ss: seq<seq<Byte>>,
                          n: nat, p: nat, bytes': nat)
    requires n <= |ss|
  {
    forall x :: HoldingAt(side, was, now, offset, bytes, ss, n, p, bytes', x)
  }

  ghost predicate HoldingAt(side: Side, was: seq<Byte>, now: seq<Byte>, offset: nat, bytes: nat, ss: seq<seq<Byte>>,
                            n: nat, p: nat, bytes': nat, x: int)
    requires n <= |ss|
  {
    var data := EncodeMany(side, ss[..n]);
    && RoomFor(side, ss[..n], offset, bytes) && p == offset + |data| && bytes' == bytes + Weight(side, ss[..n])
    && |was| == |now| == BUFFER_SIZE
    && (0 <= x < BUFFER_SIZE ==> now[x] == if offset <= x < p then data[x - offset] else was[x])
  }

  lemma HoldingIs(side: Side, was: seq<Byte>, now: seq<Byte>, offset: nat, bytes: nat, ss: seq<seq<Byte>>, n: nat,
                  p: nat, bytes': nat)
    requires n <= |ss| && Holding(side, was, now, offset, bytes, ss, n, p, bytes')
    ensures RoomFor(side, ss[..n], offset, bytes) && p == offset + |EncodeMany(side, ss[..n])|
    ensures bytes' == bytes + Weight(side, ss[..n]) && Written(was, now, offset, EncodeMany(side, ss[..n]))
    ensures |was| == BUFFER_SIZE
  {
    assert HoldingAt(side, was, now, offset, bytes, ss, n, p, bytes', 0);
    var data := EncodeMany(side, ss[..n]);
    forall x | 0 <= x < |was|
      ensures now[x] == if offset <= x < offset + |data| then data[x - offset] else was[x]
    {
      assert HoldingAt(side, was, now, offset, bytes, ss, n, p, bytes', x);
    }
  }

  lemma HoldingAll(side: Side, was: seq<Byte>, now: seq<Byte>, offset: nat, bytes: nat, ss: seq<seq<Byte>>, p: nat,
                   bytes': nat)
    requires Holding(side, was, now, offset, bytes, ss, |ss|, p, bytes')
    ensures RoomFor(side, ss, offset, bytes) && p == offset + |EncodeMany(side, ss)|
    ensures bytes' == bytes + Weight(side, ss) && Written(was, now, offset, EncodeMany(side, ss))
    ensures now[..offset] == was[..offset]
  {
    assert ss[..|ss|] == ss;
    HoldingIs(side, was, now, offset, bytes, ss, |ss|, p, bytes');
    WrittenSlice(was, now, offset, EncodeMany(side, ss));
  }

  lemma HoldingStart(side: Side, was: seq<Byte>, now: seq<Byte>, offset: nat, bytes: nat, ss: seq<seq<Byte>>, n: nat,
                     p: nat, bytes': nat)
    requires n <= |ss| && offset <= BUFFER_SIZE && Holding(side, was, now, offset, bytes, ss, n, p, bytes')
    ensures |was| == |now| == BUFFER_SIZE && now[..offset] == was[..offset]
  {
    HoldingIs(side, was, now, offset, bytes, ss, n, p, bytes');
    WrittenSlice(was, now, offset, EncodeMany(side, ss[..n]));
  }

  lemma HoldingNothing(side: Side, was: seq<Byte>, offset: nat, bytes: nat, ss: seq<seq<Byte>>)
    requires |was| == BUFFER_SIZE && offset <= BUFFER_SIZE && bytes <= MAX_STRING_BYTES
    ensures Holding(side, was, was, offset, bytes, ss, 0, offset, bytes)
  {
    assert ss[..0] == [];
  }

  /** One more string can be written exactly if there is room for it too. */
  lemma RoomNext(side: Side, ss: seq<seq<Byte>>, n: nat, next: nat, offset: nat, bytes: nat)
    requires next == n + 1 <= |ss| && RoomFor(side, ss[..n], offset, bytes)
    ensures RoomFor(side, ss[..next], offset, bytes) <==>
            && Measured(side, ss[n]) + 1 <= MAX_STRING
            && bytes + Weight(side, ss[..n]) + Measured(side, ss[n]) + 1 <= MAX_STRING_BYTES
            && offset + |EncodeMany(side, ss[..n])| + |EncodeOne(side, ss[n])| <= BUFFER_SIZE
    ensures !RoomFor(side, ss[..next], offset, bytes) ==> !RoomFor(side, ss, offset, bytes)
  {
    PrefixFits(side, ss, n, next);
    if Small(side, ss[..next]) {
      assert ss[..next][n] == ss[n];
    }
    forall i | 0 <= i < next && Small(side, ss)
      ensures Measured(side, ss[..next][i]) + 1 <= MAX_STRING
    {
      assert ss[..next][i] == ss[i];
    }
    forall i | 0 <= i < next && Measured(side, ss[n]) + 1 <= MAX_STRING
      ensures Measured(side, ss[..next][i]) + 1 <= MAX_STRING
    {
      assert i < n ==> ss[..next][i] == ss[..n][i];
    }
  }

  lemma HoldingNext(side: Side, was: seq<Byte>, before: seq<Byte>, now: seq<Byte>, offset: nat, bytes: nat,
                    ss: seq<seq<Byte>>, n: nat, next: nat, p: nat, p': nat, b: nat, b': nat)
    requires next == n + 1 <= |ss| && Holding(side, was, before, offset, bytes, ss, n, p, b)
    requires RoomFor(side, ss[..next], offset, bytes) && Written(before, now, p, EncodeOne(side, ss[n]))
    requires p' == p + |EncodeOne(side, ss[n])| && b' == b + Measured(side, ss[n]) + 1
    ensures Holding(side, was, now, offset, bytes, ss, next, p', b')
  {
    HoldingIs(side, was, before, offset, bytes, ss, n, p, b);
    PrefixFits(side, ss, n, next);
    var a, e, data := EncodeMany(side, ss[..n]), EncodeOne(side, ss[n]), EncodeMany(side, ss[..next]);
    Extended(was, before, now, offset, a, e);
    HoldingFrom(side, was, now, offset, bytes, ss, next, p', b');
  }

  lemma HoldingFrom(side: Side, was: seq<Byte>, now: seq<Byte>, offset: nat, bytes: nat, ss: seq<seq<Byte>>, n: nat,
                    p: nat, bytes': nat)
    requires n <= |ss| && |was| == BUFFER_SIZE
    requires RoomFor(side, ss[..n], offset, bytes) && p == offset + |EncodeMany(side, ss[..n])|
    requires bytes' == bytes + Weight(side, ss[..n]) && Written(was, now, offset, EncodeMany(side, ss[..n]))
    ensures Holding(side, was, now, offset, bytes, ss, n, p, bytes')
  {
  }

  /** The body of those loops. */
  method SerializeNext(side: Side, buffer: array<Byte>, ghost offset: nat, ghost bytes: nat, ss: seq<seq<Byte>>, n: nat,
                       ghost next: nat, p: nat, b: nat, ghost was: seq<Byte>)
    returns (r: Status, p': nat, b': nat)
    requires buffer.Length == BUFFER_SIZE && next == n + 1 <= |ss|
    requires Holding(side, was, buffer[..], offset, bytes, ss, n, p, b)
    modifies buffer
    ensures r.Ok? ==> Holding(side, was, buffer[..], offset, bytes, ss, next, p', b')
    ensures !r.Ok? ==> !RoomFor(side, ss, offset, bytes) && buffer[..] == old(buffer[..])
  {
    ghost var before := buffer[..];
    HoldingIs(side, was, before, offset, bytes, ss, n, p, b);
    RoomNext(side, ss, n, next, offset, bytes);
    r, p', b' := SerializeOne(side, buffer, p, ss[n], b);
    if r.Ok? {
      HoldingNext(side, was, before, buffer[..], offset, bytes, ss, n, next, p, p', b, b');
    }
  }

  /** One of the two loops of linux_exec_serialize_args. */
  method SerializeMany(side: Side, buffer: array<Byte>, offset: nat, ss: seq<seq<Byte>>, bytes: nat)
    returns (r: Status, offset': nat, bytes': nat)
    requires buffer.Length == BUFFER_SIZE && offset <= BUFFER_SIZE && bytes <= MAX_STRING_BYTES
    modifies buffer
    ensures r.Ok? <==> RoomFor(side, ss, offset, bytes)
    ensures r.Ok? ==> offset' == offset + |EncodeMany(side, ss)| && bytes' == bytes + Weight(side, ss)
    ensures r.Ok? ==> Written(old(buffer[..]), buffer[..], offset, EncodeMany(side, ss))
    ensures buffer[..offset] == old(buffer[..offset])
  {
    var n := 0;
    r, offset', bytes' := Ok, offset, bytes;
    ghost var was := buffer[..];
    HoldingNothing(side, was, offset, bytes, ss);
    while n < |ss|
      invariant 0 <= n <= |ss| && r.Ok? && Holding(side, was, buffer[..], offset, bytes, ss, n, offset', bytes')
    {
      var next := n + 1;
      ghost var before, p, b := buffer[..], offset', bytes';
      r, offset', bytes' := SerializeNext(side, buffer, offset, bytes, ss, n, next, offset', bytes', was);
      if !r.Ok? {
        HoldingStart(side, was, before, offset, bytes, ss, n, p, b);
        assert buffer[..offset] == before[..offset] && old(buffer[..offset]) == was[..offset];
        return;
      }
      n := next;
    }
    HoldingAll(side, was, buffer[..], offset, bytes, ss, offset', bytes');
    assert buffer[..offset] == buffer[..][..offset] && old(buffer[..offset]) == was[..offset];
  }

  lemma Extended(was: seq<Byte>, before: seq<Byte>, after: seq<Byte>, offset: nat, a: seq<Byte>, b: seq<Byte>)
    requires Written(was, before, offset, a) && Written(before, after, offset + |a|, b)
    ensures Written(was, after, offset, a + b)
  {
  }

  /** linux_exec_serialize_args */
  method Serialize(side: Side, buffer: array<Byte>, offset: nat, args: Args) returns (r: Status, len: nat)
    requires buffer.Length == BUFFER_SIZE
    modifies buffer
    ensures r.Ok? <==> Fits(side, args, offset)
    ensures r.Ok? ==> len == |Encode(side, args)| && Written(old(buffer[..]), buffer[..], offset, Encode(side, args))
    ensures offset <= BUFFER_SIZE ==> buffer[..offset] == old(buffer[..offset])
  {
    var argc, envc := |args.argv|, |args.envp|;
    FitsParts(side, args, offset, offset + 16);
    if argc == 0 || argc > MAX_ENTRIES || envc > MAX_ENTRIES || offset + 16 > BUFFER_SIZE {
      return Invalid, 0;
    }
    ghost var was := buffer[..];
    WriteHeader(buffer, offset, argc, envc);
    ghost var first := buffer[..];
    r, len := SerializeBoth(side, buffer, offset + 16, args);
    len := len + 16;
    SamePrefix(was, first, buffer[..], offset, offset + 16);
    if r.Ok? {
      SerializedIs(side, args, was, first, buffer[..], offset, offset + 16);
    }
  }

  method WriteHeader(buffer: array<Byte>, offset: nat, argc: nat, envc: nat)
    requires offset + 16 <= buffer.Length
    modifies buffer
    ensures Written(old(buffer[..]), buffer[..], offset, Word(argc) + Word(envc))
    ensures buffer[..][..offset] == old(buffer[..])[..offset]
  {
    ghost var was := buffer[..];
    var header := Word(argc) + Word(envc);
    Write(buffer, offset, header);
    WrittenSlice(was, buffer[..], offset, header);
  }

  lemma FitsParts(side: Side, args: Args, offset: nat, next: nat)
    requires next == offset + 16
    ensures Fits(side, args, offset) <==>
            && 0 < |args.argv| <= MAX_ENTRIES && |args.envp| <= MAX_ENTRIES
            && RoomFor(side, args.argv, next, 0)
            && RoomFor(side, args.envp, next + |EncodeMany(side, args.argv)|, Weight(side, args.argv))
    ensures Fits(side, args, offset) ==> next <= BUFFER_SIZE
  {
    EncodedSize(side, args);
  }

  lemma SerializedIs(side: Side, args: Args, was: seq<Byte>, first: seq<Byte>, now: seq<Byte>, offset: nat, next: nat)
    requires next == offset + 16 && Written(was, first, offset, Word(|args.argv|) + Word(|args.envp|))
    requires Written(first, now, next, EncodeMany(side, args.argv) + EncodeMany(side, args.envp))
    ensures Written(was, now, offset, Encode(side, args))
    ensures |Encode(side, args)| == 16 + |EncodeMany(side, args.argv)| + |EncodeMany(side, args.envp)|
  {
    var header := Word(|args.argv|) + Word(|args.envp|);
    var body := EncodeMany(side, args.argv) + EncodeMany(side, args.envp);
    EncodedSize(side, args);
    Extended(was, first, now, offset, header, body);
  }

  /** The two loops of linux_exec_serialize_args. */
  method SerializeBoth(side: Side, buffer: array<Byte>, offset: nat, args: Args) returns (r: Status, len: nat)
    requires buffer.Length == BUFFER_SIZE && offset <= BUFFER_SIZE
    modifies buffer
    ensures r.Ok? <==>
            && RoomFor(side, args.argv, offset, 0)
            && RoomFor(side, args.envp, offset + |EncodeMany(side, args.argv)|, Weight(side, args.argv))
    ensures r.Ok? ==> len == |EncodeMany(side, args.argv)| + |EncodeMany(side, args.envp)|
    ensures r.Ok? ==>
              Written(old(buffer[..]), buffer[..], offset, EncodeMany(side, args.argv) + EncodeMany(side, args.envp))
    ensures buffer[..offset] == old(buffer[..offset])
  {
    var p, q, bytes;
    len := 0;
    ghost var was := buffer[..];
    r, p, bytes := SerializeMany(side, buffer, offset, args.argv, 0);
    if !r.Ok? {
      return;
    }
    ghost var middle := buffer[..];
    r, q, bytes := SerializeMany(side, buffer, p, args.envp, bytes);
    SamePrefix(was, middle, buffer[..], offset, p);
    if r.Ok? {
      Extended(was, middle, buffer[..], offset, EncodeMany(side, args.argv), EncodeMany(side, args.envp));
      len := q - offset;
    }
  }

  lemma SamePrefix(a: seq<Byte>, b: seq<Byte>, c: seq<Byte>, offset: nat, p: nat)
    requires |a| == |b| == |c| && offset <= p <= |a| && a[..offset] == b[..offset] && b[..p] == c[..p]
    ensures a[..offset] == c[..offset]
  {
    assert b[..p][..offset] == b[..offset] && c[..p][..offset] == c[..offset];
  }

  lemma WrittenSlice(was: seq<Byte>, now: seq<Byte>, offset: nat, data: seq<Byte>)
    requires Written(was, now, offset, data)
    ensures now[offset..offset + |data|] == data && now[..offset] == was[..offset]
  {
  }

  lemma EncodedSize(side: Side, args: Args)
    ensures |Encode(side, args)| == 16 + |EncodeMany(side, args.argv)| + |EncodeMany(side, args.envp)|
    ensures Encode(side, args)
         == (Word(|args.argv|) + Word(|args.envp|)) + (EncodeMany(side, args.argv) + EncodeMany(side, args.envp))
  {
  }

  // ----- deserializing

  /** linux_exec_vector_push: a vector that is full is doubled, up to the limit. */
  method Push(values: seq<seq<Byte>>, capacity: nat, value: seq<Byte>, grants: nat)
    returns (r: Status, values': seq<seq<Byte>>, capacity': nat, left: nat)
    requires |values| <= capacity <= MAX_ENTRIES
    ensures |values'| <= capacity' <= MAX_ENTRIES && grants - 1 <= left <= grants
    ensures r == if |values| >= MAX_ENTRIES then TooBig
                 else if |values| == capacity && grants == 0 then NoMemory else Ok
    ensures values' == if r.Ok? then values + [value] else values
  {
    values', capacity', left := values, capacity, grants;
    var grown := if capacity == 0 then 8 else if capacity * 2 > MAX_ENTRIES then MAX_ENTRIES else capacity * 2;
    if |values| >= MAX_ENTRIES || (|values| == capacity && grown == capacity) {
      return TooBig, values', capacity', left;
    }
    if |values| == capacity {
      if grants == 0 {
        return NoMemory, values', capacity', left;
      }
      capacity', left := grown, grants - 1;
    }
    return Ok, values + [value], capacity', left;
  }

  /** linux_exec_deserialize_one at position `p` of the vector `w`. */
  method DeserializeOne(w: seq<Byte>, p: nat, grants: nat) returns (r: Status, s: seq<Byte>, p': nat, left: nat)
    requires p <= |w|
    ensures r in {Ok, Invalid, NoMemory} && p <= p' <= |w| && grants - 1 <= left <= grants
    ensures r.Ok? ==> DecodeOne(w[p..]) == Some(Decoded([s], w[p'..]))
    ensures r.Invalid? ==> DecodeOne(w[p..]).None?
    ensures r.NoMemory? ==> grants == 0
  {
    ghost var rest := w[p..];
    s, p', left := [], p, grants;
    if p + 8 > |w| {
      return Invalid, s, p', left;
    }
    assert w[p..p + 8] == rest[..8];
    var n := Value(w[p..p + 8]);
    if n == 0 || n > MAX_STRING || p + 8 + n > |w| {
      return Invalid, s, p', left;
    }
    if grants == 0 {
      return NoMemory, s, p', left;
    }
    left := grants - 1;
    var copy := w[p + 8..p + 8 + n];
    assert copy == rest[8..8 + n] && copy[n - 1] == rest[8 + n - 1];
    if copy[n - 1] != 0 {
      return Invalid, s, p', left;
    }
    assert w[p + 8 + n..] == rest[8 + n..];
    return Ok, UpToZero(copy), p + 8 + n, left;
  }

  lemma PrependStep(ss: seq<seq<Byte>>, w: seq<Byte>, k: nat, d: Decoded)
    requires k > 0 && DecodeOne(w) == Some(d)
    ensures Prepend(ss, DecodeMany(w, k)) == Prepend(ss + d.strings, DecodeMany(d.rest, k - 1))
  {
    var more := DecodeMany(d.rest, k - 1);
    if more.Some? {
      assert ss + (d.strings + more.value.strings) == (ss + d.strings) + more.value.strings;
    }
  }

  lemma PrependNothing(d: Option<Decoded>)
    ensures Prepend([], d) == d
  {
    if d.Some? {
      assert [] + d.value.strings == d.value.strings;
    }
  }

  /** After reading `ss`, decoding goes on at `p'`. */
  ghost predicate Reading(w: seq<Byte>, p: nat, k: nat, ss: seq<seq<Byte>>, p': nat) {
    p <= |w| && p' <= |w| && |ss| <= k && DecodeMany(w[p..], k) == Prepend(ss, DecodeMany(w[p'..], k - |ss|))
  }

  /** The body of those loops. */
  method DeserializeNext(w: seq<Byte>, ghost p: nat, ghost k: nat, ss: seq<seq<Byte>>, capacity: nat, at: nat,
                         grants: nat)
    returns (r: Status, ss': seq<seq<Byte>>, capacity': nat, p': nat, left: nat)
    requires Reading(w, p, k, ss, at) && |ss| < k <= MAX_ENTRIES && |ss| <= capacity <= MAX_ENTRIES
    ensures r in {Ok, Invalid, NoMemory} && p' <= |w| && grants - 2 <= left <= grants
    ensures r.Ok? ==> |ss'| == |ss| + 1 && |ss'| <= capacity' <= MAX_ENTRIES && Reading(w, p, k, ss', p')
    ensures r.Invalid? ==> DecodeMany(w[p..], k).None?
    ensures r.NoMemory? ==> grants < 2
  {
    var s;
    ss', capacity' := ss, capacity;
    r, s, p', left := DeserializeOne(w, at, grants);
    if !r.Ok? {
      return;
    }
    PrependStep(ss, w[at..], k - |ss|, Decoded([s], w[p'..]));
    r, ss', capacity', left := Push(ss, capacity, s, left);
  }

  /** One of the two loops of linux_exec_deserialize_args. */
  method DeserializeMany(w: seq<Byte>, p: nat, k: nat, grants: nat)
    returns (r: Status, ss: seq<seq<Byte>>, p': nat, left: nat)
    requires p <= |w| && k <= MAX_ENTRIES
    ensures r in {Ok, Invalid, NoMemory} && p' <= |w| && grants - 2 * k <= left <= grants
    ensures r.Ok? ==> DecodeMany(w[p..], k) == Some(Decoded(ss, w[p'..]))
    ensures r.Invalid? ==> DecodeMany(w[p..], k).None?
    ensures r.NoMemory? ==> grants < 2 * k
  {
    var capacity := 0;
    r, ss, p', left := Ok, [], p, grants;
    PrependNothing(DecodeMany(w[p..], k));
    while |ss| < k
      invariant r.Ok? && |ss| <= capacity <= MAX_ENTRIES && Reading(w, p, k, ss, p')
      invariant grants - 2 * |ss| <= left <= grants
      decreases k - |ss|
    {
      r, ss, capacity, p', left := DeserializeNext(w, p, k, ss, capacity, p', left);
      if !r.Ok? {
        return;
      }
    }
    assert ss + [] == ss;
  }

  /** linux_exec_deserialize_args on the `len` bytes at `offset` of the shared buffer. */
  method Deserialize(side: Side, buffer: array<Byte>, offset: nat, len: nat, grants: nat)
    returns (r: Status, args: Args, left: nat)
    requires buffer.Length == BUFFER_SIZE
    ensures r in {Ok, Invalid, NoMemory}
    ensures offset + len > BUFFER_SIZE ==> r.Invalid?
    ensures offset + len <= BUFFER_SIZE && r.Ok? ==> Decode(side, buffer[offset..offset + len]) == Some(args)
    ensures offset + len <= BUFFER_SIZE && r.Invalid? ==> Decode(side, buffer[offset..offset + len]).None?
    ensures r.NoMemory? ==> grants < 4 * MAX_ENTRIES
    ensures grants - 4 * MAX_ENTRIES <= left <= grants
  {
    args, left := Args([], []), grants;
    if len < 16 || offset + len > BUFFER_SIZE {
      return Invalid, args, left;
    }
    var w := buffer[offset..offset + len];
    var argc, envc := Value(w[..8]), Value(w[8..16]);
    if argc == 0 || argc > MAX_ENTRIES || envc > MAX_ENTRIES {
      return Invalid, args, left;
    }
    var argv, p, envp, q;
    r, argv, p, left := DeserializeMany(w, 16, argc, grants);
    if !r.Ok? {
      return;
    }
    r, envp, q, left := DeserializeMany(w, p, envc, left);
    if !r.Ok? {
      return;
    }
    var bytes := WeightOf(side, argv, envp);
    if q != |w| || bytes > MAX_STRING_BYTES {
      return Invalid, args, left;
    }
    return Ok, Args(argv, envp), left;
  }

  /** The running total `args->bytes`. */
  function WeightOf(side: Side, argv: seq<seq<Byte>>, envp: seq<seq<Byte>>): nat {
    Weight(side, argv) + Weight(side, envp)
  }

  // ----- scripts

  const HASH: Byte := 35
  const BANG: Byte := 33
  const SLASH: Byte := 47

  predicate Blank(c: Byte) {
    c == 32 || c == 9
  }

  predicate EndsLine(c: Byte) {
    c == 10 || c == 13 || c == 0
  }

  /** The bytes before the first one that ends the line. */
  function LineOf(s: seq<Byte>): seq<Byte> {
    if s == [] || EndsLine(s[0]) then [] else [s[0]] + LineOf(s[1..])
  }

  function SkipBlanks(s: seq<Byte>): seq<Byte> {
    if s == [] || !Blank(s[0]) then s else SkipBlanks(s[1..])
  }

  function WordOf(s: seq<Byte>): seq<Byte> {
    if s == [] || Blank(s[0]) then [] else [s[0]] + WordOf(s[1..])
  }

  function AfterWord(s: seq<Byte>): seq<Byte> {
    if s == [] || Blank(s[0]) then s else AfterWord(s[1..])
  }

  function TrimEnd(s: seq<Byte>): seq<Byte> {
    if s == [] || !Blank(s[|s| - 1]) then s else TrimEnd(s[..|s| - 1])
  }

  /** Only the first bytes of an image are looked at. */
  function Prefix(image: seq<Byte>): seq<Byte> {
    if |image| > SHEBANG_MAX then image[..SHEBANG_MAX] else image
  }

  /** The line of a script that names its interpreter, without the two marks. */
  function ShebangLine(image: seq<Byte>): seq<Byte> {
    var line := LineOf(Prefix(image));
    if |line| >= 2 then line[2..] else []
  }

  function InterpreterOf(image: seq<Byte>): seq<Byte> {
    WordOf(SkipBlanks(ShebangLine(image)))
  }

  function ArgumentOf(image: seq<Byte>): seq<Byte> {
    TrimEnd(SkipBlanks(AfterWord(SkipBlanks(ShebangLine(image)))))
  }

  function ArgOf(image: seq<Byte>): Option<seq<Byte>> {
    if ArgumentOf(image) == [] then None else Some(ArgumentOf(image))
  }

  predicate IsScript(image: seq<Byte>) {
    && |image| >= 2 && image[0] == HASH && image[1] == BANG
    && InterpreterOf(image) != [] && InterpreterOf(image)[0] == SLASH && |InterpreterOf(image)| < MAX_PATH
  }

  lemma {:induction false} LineOfIs(s: seq<Byte>, n: nat)
    requires n <= |s| && (forall i :: 0 <= i < n ==> !EndsLine(s[i])) && (n == |s| || EndsLine(s[n]))
    ensures LineOf(s) == s[..n]
  {
    if n > 0 {
      LineOfIs(s[1..], n - 1);
      assert [s[0]] + s[1..][..n - 1] == s[..n];
    }
  }

  lemma SkipOne(s: seq<Byte>, p: nat)
    requires p < |s|
    ensures s[p..][1..] == s[p + 1..] && s[p..][0] == s[p]
  {
  }

  /** linux_exec_parse_shebang, on the bytes that were read of the image. */
  method ParseShebang(image: seq<Byte>, grants: nat)
    returns (r: Status, interp: seq<Byte>, arg: Option<seq<Byte>>, left: nat)
    ensures r in {Ok, Invalid, NoMemory}
    ensures r.Invalid? <==> !IsScript(image)
    ensures r.NoMemory? ==> grants < 2
    ensures r.Ok? ==> interp == InterpreterOf(image)
    ensures r.Ok? ==> arg == ArgOf(image)
    ensures grants - 2 <= left <= grants
  {
    interp, arg, left := [], None, grants;
    if |image| < 2 || image[0] != HASH || image[1] != BANG {
      return Invalid, interp, arg, left;
    }
    var line := ReadLine(image);
    var pos := 2;
    pos := PassBlanks(line, pos);
    var start := pos;
    pos := PassWord(line, pos);
    if start == pos || line[start] != SLASH || pos - start >= MAX_PATH {
      return Invalid, interp, arg, left;
    }
    if left == 0 {
      return NoMemory, interp, arg, left;
    }
    interp, left := line[start..pos], left - 1;
    pos := PassBlanks(line, pos);
    var end := DropBlanks(line, pos);
    if end > pos {
      if left == 0 {
        return NoMemory, [], arg, left;
      }
      arg, left := Some(line[pos..end]), left - 1;
    }
    return Ok, interp, arg, left;
  }

  method ReadLine(image: seq<Byte>) returns (line: seq<Byte>)
    requires |image| >= 2 && image[0] == HASH && image[1] == BANG
    ensures |line| >= 2 && line[2..] == ShebangLine(image)
  {
    var end := 0;
    while end < |image| && end < SHEBANG_MAX && !EndsLine(image[end])
      invariant 0 <= end <= |image| && end <= SHEBANG_MAX
      invariant forall i :: 0 <= i < end ==> !EndsLine(image[i])
    {
      end := end + 1;
    }
    ghost var s := Prefix(image);
    LineOfIs(s, end);
    assert s[..end] == image[..end];
    return image[..end];
  }

  method PassBlanks(line: seq<Byte>, from: nat) returns (pos: nat)
    requires from <= |line|
    ensures from <= pos <= |line| && line[pos..] == SkipBlanks(line[from..])
  {
    pos := from;
    while pos < |line| && Blank(line[pos])
      invariant from <= pos <= |line| && SkipBlanks(line[pos..]) == SkipBlanks(line[from..])
    {
      SkipOne(line, pos);
      pos := pos + 1;
    }
  }

  lemma PassOne(line: seq<Byte>, from: nat, pos: nat, next: nat)
    requires from <= pos < |line| && next == pos + 1 && !Blank(line[pos])
    ensures AfterWord(line[next..]) == AfterWord(line[pos..])
    ensures line[from..next] + WordOf(line[next..]) == line[from..pos] + WordOf(line[pos..])
  {
    SkipOne(line, pos);
    assert line[from..pos] + [line[pos]] == line[from..next];
  }

  method PassWord(line: seq<Byte>, from: nat) returns (pos: nat)
    requires from <= |line|
    ensures from <= pos <= |line|
    ensures line[from..pos] == WordOf(line[from..]) && line[pos..] == AfterWord(line[from..])
  {
    pos := from;
    while pos < |line| && !Blank(line[pos])
      invariant from <= pos <= |line| && AfterWord(line[pos..]) == AfterWord(line[from..])
      invariant line[from..pos] + WordOf(line[pos..]) == WordOf(line[from..])
    {
      var next := pos + 1;
      PassOne(line, from, pos, next);
      pos := next;
    }
  }

  method DropBlanks(line: seq<Byte>, from: nat) returns (end: nat)
    requires from <= |line|
    ensures from <= end <= |line| && line[from..end] == TrimEnd(line[from..])
  {
    end := |line|;
    assert line[from..end] == line[from..];
    while end > from && Blank(line[end - 1])
      invariant from <= end <= |line| && TrimEnd(line[from..end]) == TrimEnd(line[from..])
    {
      assert line[from..end][..end - 1 - from] == line[from..end - 1];
      end := end - 1;
    }
  }

  /**
  The vector that runs a script: interpreter, its argument if any, the script, and the old
  arguments but the first.
  */
  function Rewritten(args: Args, script: seq<Byte>, interp: seq<Byte>, arg: Option<seq<Byte>>): Args {
    var tail := if args.argv == [] then [] else args.argv[1..];
    Args([interp] + (if arg.Some? then [arg.value] else []) + [script] + tail, args.envp)
  }

  /** The limits that linux_exec_rewrite_shebang_args checks. */
  predicate InLimits(args: Args) {
    |args.argv| <= MAX_ENTRIES && WeightOf(Server, args.argv, args.envp) <= MAX_STRING_BYTES
  }

  /** linux_exec_rewrite_shebang_args */
  method Rewrite(args: Args, script: seq<Byte>, interp: seq<Byte>, arg: Option<seq<Byte>>, grants: nat)
    returns (r: Status, next: Args)
    requires |script| < MAX_PATH
    ensures r.Ok? ==> next == Rewritten(args, script, interp, arg)
    ensures r.Ok? <==> grants >= 2 && InLimits(Rewritten(args, script, interp, arg))
  {
    next := args;
    var goal := Rewritten(args, script, interp, arg);
    var count := (if arg.Some? then 3 else 2) + if |args.argv| > 1 then |args.argv| - 1 else 0;
    if count > MAX_ENTRIES {
      return Invalid, next;
    }
    if grants < 2 {
      return NoMemory, next;
    }
    var argv := [interp];
    if arg.Some? {
      argv := argv + [arg.value];
    }
    argv := argv + [script];
    var i, prefix := 1, |argv|;
    while i < |args.argv|
      invariant 1 <= i && (|args.argv| >= 1 ==> i <= |args.argv|) && (|args.argv| == 0 ==> i == 1)
      invariant |argv| == prefix + i - 1 && argv <= goal.argv
    {
      argv := argv + [args.argv[i]];
      i := i + 1;
    }
    assert argv == goal.argv;
    if WeightOf(Server, argv, args.envp) > MAX_STRING_BYTES {
      return TooBig, next;
    }
    return Ok, Args(argv, args.envp);
  }

  const VECTOR_OFF := MAX_PATH + SHEBANG_MAX

  /** The request that the kernel left in the buffer: a path, the start of the image and a vector. */
  predicate GoodRequest(buffer: seq<Byte>, pathLen: nat, imageLen: nat, vectorLen: nat) {
    && |buffer| == BUFFER_SIZE
    && 0 < pathLen <= MAX_PATH && 0 < imageLen <= SHEBANG_MAX && 0 < vectorLen <= BUFFER_SIZE - VECTOR_OFF
    && buffer[pathLen - 1] == 0 && buffer[0] != 0
  }

  /** The vector that the kernel should get back. */
  function Answer(buffer: seq<Byte>, pathLen: nat, imageLen: nat, vectorLen: nat): Option<Args>
    requires GoodRequest(buffer, pathLen, imageLen, vectorLen)
  {
    var image := buffer[MAX_PATH..MAX_PATH + imageLen];
    match Decode(Server, buffer[VECTOR_OFF..VECTOR_OFF + vectorLen])
    case None => None
    case Some(args) =>
      if IsScript(image) then
        Some(Rewritten(args, UpToZero(buffer[..pathLen]), InterpreterOf(image), ArgOf(image)))
      else None
  }

  // ----- who frees the strings

  /** The strings that linux_exec_prepare allocates. */
  datatype Str = Interp | Arg | Script | Argv(i: nat) | Envp(i: nat)

  /** How far linux_exec_prepare came, and the numbers of strings it had read by then. */
  datatype Stage =
    | Start
    | Decoding(argc: nat, envc: nat)
    | Parsed(argc: nat, envc: nat, hasArg: bool)
    | Replaced(argc: nat, envc: nat, hasArg: bool)

  function Names(argc: nat, from: nat): seq<Str>
    requires from <= argc
  {
    seq(argc - from, i requires 0 <= i => Argv(from + i))
  }

  function EnvNames(envc: nat): seq<Str> {
    seq(envc, i requires 0 <= i => Envp(i))
  }

  function Shebang(hasArg: bool): seq<Str> {
    if hasArg then [Interp, Arg] else [Interp]
  }

  /** `args->argv`: after a rewrite it holds interpreter, argument and script too, and no longer the first argument. */
  function Held(stage: Stage): seq<Str> {
    match stage
    case Start => []
    case Decoding(argc, envc) => Names(argc, 0) + EnvNames(envc)
    case Parsed(argc, envc, _) => Names(argc, 0) + EnvNames(envc)
    case Replaced(argc, envc, hasArg) =>
      Shebang(hasArg) + [Script] + (if argc > 0 then Names(argc, 1) else []) + EnvNames(envc)
  }

  /** All strings that are allocated when linux_exec_prepare comes to its end. */
  function Allocated(stage: Stage): seq<Str> {
    match stage
    case Parsed(_, _, hasArg) => Shebang(hasArg) + Held(stage)
    case _ => Held(stage)
  }

  /** linux_exec_args_free */
  method FreeEach(strings: seq<Str>) returns (freed: multiset<Str>)
    ensures freed == multiset(strings)
  {
    freed := multiset{};
    for i := 0 to |strings|
      invariant freed == multiset(strings[..i])
    {
      assert strings[..i + 1] == strings[..i] + [strings[i]];
      freed := freed + multiset{strings[i]};
    }
    assert strings[..|strings|] == strings;
  }

  /**
  The end of linux_exec_prepare.  It frees every string once, unless something
  fails after the rewrite: then interpreter and argument are freed twice.
  */
  method CleanUp(stage: Stage, ok: bool) returns (freed: multiset<Str>)
    requires ok ==> stage.Replaced?
    ensures freed == multiset(Allocated(stage)) <==> ok || !stage.Replaced?
    ensures !ok && stage.Replaced? ==> freed == multiset(Allocated(stage)) + multiset(Shebang(stage.hasArg))
  {
    freed := multiset{};
    if !ok && (stage.Parsed? || stage.Replaced?) {
      freed := FreeEach(Shebang(stage.hasArg));
    }
    var rest := FreeEach(Held(stage));
    if !ok && stage.Replaced? {
      assert multiset(Shebang(stage.hasArg))[Interp] == 1;
    }
    freed := freed + rest;
  }

  /** As many allocations as linux_exec_prepare ever makes. */
  const ENOUGH := 4 * MAX_ENTRIES + 4

  /** The part of linux_exec_prepare that reads: decode, parse and rewrite. */
  method PrepareArgs(buffer: array<Byte>, pathLen: nat, imageLen: nat, vectorLen: nat, grants: nat)
    returns (r: Status, args: Args, stage: Stage)
    requires buffer.Length == BUFFER_SIZE && GoodRequest(buffer[..], pathLen, imageLen, vectorLen)
    ensures r.Ok? <==> stage.Replaced?
    ensures r.Ok? ==> Answer(buffer[..], pathLen, imageLen, vectorLen) == Some(args) && InLimits(args)
    ensures grants >= ENOUGH ==>
              var answer := Answer(buffer[..], pathLen, imageLen, vectorLen);
              r.Ok? <==> answer.Some? && InLimits(answer.value)
  {
    ghost var b := buffer[..];
    var path, image := buffer[..pathLen], buffer[MAX_PATH..MAX_PATH + imageLen];
    assert b[..pathLen] == path && b[MAX_PATH..MAX_PATH + imageLen] == image;
    assert b[VECTOR_OFF..VECTOR_OFF + vectorLen] == buffer[VECTOR_OFF..VECTOR_OFF + vectorLen];
    BodyText(path);
    var interp, arg, left;
    stage := Start;
    r, args, left := Deserialize(Server, buffer, VECTOR_OFF, vectorLen, grants);
    if !r.Ok? {
      return;
    }
    var argc, envc := |args.argv|, |args.envp|;
    stage := Decoding(argc, envc);
    r, interp, arg, left := ParseShebang(image, left);
    if !r.Ok? {
      return;
    }
    r, args := Rewrite(args, UpToZero(path), interp, arg, left);
    stage := if r.Ok? then Replaced(argc, envc, arg.Some?) else Parsed(argc, envc, arg.Some?);
  }

  /** The interpreter's path is short. */
  lemma {:induction false} WordSize(s: seq<Byte>)
    ensures |WordOf(s)| + |AfterWord(s)| == |s|
  {
    if s != [] && !Blank(s[0]) {
      WordSize(s[1..]);
    }
  }

  lemma {:induction false} SkipSize(s: seq<Byte>)
    ensures |SkipBlanks(s)| <= |s|
  {
    if s != [] && Blank(s[0]) {
      SkipSize(s[1..]);
    }
  }

  lemma {:induction false} LineSize(s: seq<Byte>)
    ensures |LineOf(s)| <= |s|
  {
    if s != [] && !EndsLine(s[0]) {
      LineSize(s[1..]);
    }
  }

  lemma {:induction false} TrimSize(s: seq<Byte>)
    ensures |TrimEnd(s)| <= |s|
  {
    if s != [] && Blank(s[|s| - 1]) {
      TrimSize(s[..|s| - 1]);
    }
  }

  lemma ShebangSizes(image: seq<Byte>)
    ensures |InterpreterOf(image)| + |ArgumentOf(image)| <= SHEBANG_MAX
  {
    var s := Prefix(image);
    LineSize(s);
    var line := ShebangLine(image);
    SkipSize(line);
    WordSize(SkipBlanks(line));
    SkipSize(AfterWord(SkipBlanks(line)));
    TrimSize(SkipBlanks(AfterWord(SkipBlanks(line))));
  }

  /** When linux_exec_prepare answers a request, given memory. */
  predicate Answers(buffer: seq<Byte>, pathLen: nat, imageLen: nat, vectorLen: nat) {
    && GoodRequest(buffer, pathLen, imageLen, vectorLen)
    && Answer(buffer, pathLen, imageLen, vectorLen).Some?
    && Fits(Server, Answer(buffer, pathLen, imageLen, vectorLen).value, VECTOR_OFF)
  }

  /** When linux_exec_prepare rewrites a request, given memory. */
  predicate Takes(buffer: seq<Byte>, pathLen: nat, imageLen: nat, vectorLen: nat) {
    && GoodRequest(buffer, pathLen, imageLen, vectorLen)
    && Answer(buffer, pathLen, imageLen, vectorLen).Some?
    && InLimits(Answer(buffer, pathLen, imageLen, vectorLen).value)
  }

  lemma AnswerPath(buffer: seq<Byte>, pathLen: nat, imageLen: nat, vectorLen: nat)
    requires GoodRequest(buffer, pathLen, imageLen, vectorLen) && Answer(buffer, pathLen, imageLen, vectorLen).Some?
    ensures
      var answer := Answer(buffer, pathLen, imageLen, vectorLen).value;
      && answer.argv != [] && 0 < |answer.argv[0]| <= SHEBANG_MAX
      && answer.argv[0] == InterpreterOf(buffer[MAX_PATH..MAX_PATH + imageLen])
  {
    ShebangSizes(buffer[MAX_PATH..MAX_PATH + imageLen]);
  }

  /** What linux_exec_prepare leaves in the buffer. */
  ghost predicate HoldsAnswer(buffer: seq<Byte>, args: Args, pathLen: nat, vectorLen: nat) {
    && |buffer| == BUFFER_SIZE && args.argv != []
    && vectorLen == |Encode(Server, args)| && VECTOR_OFF + vectorLen <= BUFFER_SIZE
    && buffer[VECTOR_OFF..VECTOR_OFF + vectorLen] == Encode(Server, args)
    && 1 < pathLen <= MAX_PATH && buffer[..pathLen] == args.argv[0] + [0]
  }

  /** linux_exec_prepare: the answer takes the place of the request. */
  method Prepare(buffer: array<Byte>, pathLen: nat, imageLen: nat, vectorLen: nat, grants: nat)
    returns (r: Status, pathLen': nat, vectorLen': nat, stage: Stage, freed: multiset<Str>)
    requires buffer.Length == BUFFER_SIZE
    modifies buffer
    ensures r.Ok? ==> Answers(old(buffer[..]), pathLen, imageLen, vectorLen)
    ensures grants >= ENOUGH && Answers(old(buffer[..]), pathLen, imageLen, vectorLen) ==> r.Ok?
    ensures r.Ok? ==>
              HoldsAnswer(buffer[..], Answer(old(buffer[..]), pathLen, imageLen, vectorLen).value, pathLen', vectorLen')
    ensures freed == multiset(Allocated(stage)) <==> r.Ok? || !stage.Replaced?
    ensures stage.Replaced? ==> Takes(old(buffer[..]), pathLen, imageLen, vectorLen)
    ensures grants >= ENOUGH && Takes(old(buffer[..]), pathLen, imageLen, vectorLen) ==> stage.Replaced?
    ensures stage.Replaced? ==> (r.Ok? <==> Answers(old(buffer[..]), pathLen, imageLen, vectorLen))
  {
    pathLen', vectorLen' := 0, 0;
    if !GoodRequest(buffer[..], pathLen, imageLen, vectorLen) {
      assert multiset(Allocated(Start)) == multiset{};
      return Invalid, pathLen', vectorLen', Start, multiset{};
    }
    ghost var answer := Answer(buffer[..], pathLen, imageLen, vectorLen);
    if answer.Some? {
      AnswerPath(buffer[..], pathLen, imageLen, vectorLen);
    }
    var args;
    r, args, stage := PrepareArgs(buffer, pathLen, imageLen, vectorLen, grants);
    if r.Ok? {
      r, pathLen', vectorLen' := WriteAnswer(buffer, args);
    }
    freed := CleanUp(stage, r.Ok?);
  }

  /** The part of linux_exec_prepare that writes. */
  method WriteAnswer(buffer: array<Byte>, args: Args) returns (r: Status, pathLen: nat, vectorLen: nat)
    requires buffer.Length == BUFFER_SIZE && args.argv != [] && 0 < |args.argv[0]| <= SHEBANG_MAX
    modifies buffer
    ensures r.Ok? <==> Fits(Server, args, VECTOR_OFF)
    ensures r.Ok? ==> HoldsAnswer(buffer[..], args, pathLen, vectorLen)
  {
    vectorLen := 0;
    pathLen := Measured(Server, args.argv[0]) + 1;
    if pathLen == 1 || pathLen > MAX_PATH {
      return Invalid, pathLen, vectorLen;
    }
    var path := args.argv[0] + [0];
    Write(buffer, 0, path[..pathLen]);
    ghost var middle := buffer[..];
    assert path[..pathLen] == path && middle[..pathLen] == path;
    r, vectorLen := Serialize(Server, buffer, VECTOR_OFF, args);
    if r.Ok? {
      AnswerHeld(middle, buffer[..], args, path);
    }
  }

  lemma AnswerHeld(middle: seq<Byte>, now: seq<Byte>, args: Args, path: seq<Byte>)
    requires |middle| == |now| == BUFFER_SIZE && args.argv != [] && 0 < |args.argv[0]| < MAX_PATH
    requires path == args.argv[0] + [0]
    requires middle[..|path|] == path && Written(middle, now, VECTOR_OFF, Encode(Server, args))
    ensures HoldsAnswer(now, args, |path|, |Encode(Server, args)|)
  {
    WrittenSlice(middle, now, VECTOR_OFF, Encode(Server, args));
    assert now[..VECTOR_OFF][..|path|] == now[..|path|] && middle[..VECTOR_OFF][..|path|] == middle[..|path|];
  }

  /** The vectors of a request and its answer are C strings if those of the request are. */
  lemma AnswerIsText(buffer: seq<Byte>, pathLen: nat, imageLen: nat, vectorLen: nat)
    requires GoodRequest(buffer, pathLen, imageLen, vectorLen) && Answer(buffer, pathLen, imageLen, vectorLen).Some?
    ensures TextArgs(Answer(buffer, pathLen, imageLen, vectorLen).value)
  {
    var image, w := buffer[MAX_PATH..MAX_PATH + imageLen], buffer[VECTOR_OFF..VECTOR_OFF + vectorLen];
    ReencodeIff(Server, w);
    UpToZeroIs(buffer[..pathLen]);
    ShebangWordsAreText(image);
    RewrittenIsText(Decode(Server, w).value, UpToZero(buffer[..pathLen]), InterpreterOf(image), ArgOf(image));
  }

  lemma RewrittenIsText(args: Args, script: seq<Byte>, interp: seq<Byte>, arg: Option<seq<Byte>>)
    requires TextArgs(args) && IsText(script) && IsText(interp) && (arg.Some? ==> IsText(arg.value))
    ensures TextArgs(Rewritten(args, script, interp, arg))
  {
  }

  lemma ShebangWordsAreText(image: seq<Byte>)
    ensures IsText(InterpreterOf(image)) && IsText(ArgumentOf(image))
  {
    ShebangIsText(image);
    var line := ShebangLine(image);
    SkipBlanksIsText(line);
    WordIsText(SkipBlanks(line));
    SkipBlanksIsText(AfterWord(SkipBlanks(line)));
    TrimIsText(SkipBlanks(AfterWord(SkipBlanks(line))));
  }

  lemma {:induction false} LineIsText(s: seq<Byte>)
    ensures IsText(LineOf(s))
  {
    if s == [] || EndsLine(s[0]) {
    } else {
      LineIsText(s[1..]);
    }
  }

  lemma ShebangIsText(image: seq<Byte>)
    ensures IsText(ShebangLine(image))
  {
    LineIsText(Prefix(image));
  }

  lemma {:induction false} SkipBlanksIsText(s: seq<Byte>)
    requires IsText(s)
    ensures IsText(SkipBlanks(s))
  {
    if s == [] || !Blank(s[0]) {
    } else {
      SkipBlanksIsText(s[1..]);
    }
  }

  lemma {:induction false} WordIsText(s: seq<Byte>)
    requires IsText(s)
    ensures IsText(WordOf(s)) && IsText(AfterWord(s))
  {
    if s == [] || Blank(s[0]) {
    } else {
      WordIsText(s[1..]);
    }
  }

  lemma {:induction false} TrimIsText(s: seq<Byte>)
    requires IsText(s)
    ensures IsText(TrimEnd(s))
  {
    if s == [] || !Blank(s[|s| - 1]) {
    } else {
      TrimIsText(s[..|s| - 1]);
    }
  }

  /** No argument but the first, and no environment string, is longer than the server measures. */
  predicate NoneLong(args: Args) {
    && (forall i :: 1 <= i < |args.argv| ==> |args.argv[i]| <= MAX_PATH)
    && (forall i :: 0 <= i < |args.envp| ==> |args.envp[i]| <= MAX_PATH)
  }

  /** The server writes the vector of a script whole exactly if nothing that it takes over from the request is long. */
  lemma RewrittenWhole(args: Args, script: seq<Byte>, interp: seq<Byte>, arg: Option<seq<Byte>>)
    requires |script| <= MAX_PATH && |interp| <= MAX_PATH && (arg.Some? ==> |arg.value| <= MAX_PATH)
    ensures
      var goal := Rewritten(args, script, interp, arg);
      Whole(Server, goal.argv) && Whole(Server, goal.envp) <==> NoneLong(args)
  {
    var goal := Rewritten(args, script, interp, arg);
    WholeIff(Server, goal.argv);
    WholeIff(Server, goal.envp);
    var k := if arg.Some? then 3 else 2;
    assert forall i :: 1 <= i < |args.argv| ==> goal.argv[k + i - 1] == args.argv[i];
    if NoneLong(args) {
      forall i | 0 <= i < |goal.argv|
        ensures |goal.argv[i]| <= MAX_PATH
      {
        assert i >= k ==> goal.argv[i] == args.argv[i - k + 1];
      }
    }
  }

  /**
  What the kernel reads of the answer to a request: interpreter, argument, script
  and old arguments if no string of the request is longer than the server measures,
  and otherwise nothing.
  */
  lemma KernelReadsAnswer(buffer: seq<Byte>, pathLen: nat, imageLen: nat, vectorLen: nat)
    requires Answers(buffer, pathLen, imageLen, vectorLen)
    ensures
      var answer := Answer(buffer, pathLen, imageLen, vectorLen).value;
      Decode(Kernel, Encode(Server, answer))
      == if NoneLong(Decode(Server, buffer[VECTOR_OFF..VECTOR_OFF + vectorLen]).value) then Some(answer) else None
  {
    var image := buffer[MAX_PATH..MAX_PATH + imageLen];
    AnswerIsText(buffer, pathLen, imageLen, vectorLen);
    RoundTripIff(Server, Kernel, Answer(buffer, pathLen, imageLen, vectorLen).value, VECTOR_OFF);
    UpToZeroIs(buffer[..pathLen]);
    ShebangSizes(image);
    RewrittenWhole(Decode(Server, buffer[VECTOR_OFF..VECTOR_OFF + vectorLen]).value, UpToZero(buffer[..pathLen]),
                   InterpreterOf(image), ArgOf(image));
  }

  // ----- from the kernel to the server and back

  /** The request that the kernel makes for a script at `path`. */
  ghost predicate IsRequest(buffer: seq<Byte>, path: seq<Byte>, image: seq<Byte>, args: Args) {
    && |buffer| == BUFFER_SIZE && 0 < |path| < MAX_PATH && 0 < |image| <= SHEBANG_MAX
    && buffer[..|path| + 1] == path + [0] && buffer[MAX_PATH..MAX_PATH + |image|] == image
    && VECTOR_OFF + |Encode(Kernel, args)| <= BUFFER_SIZE
    && buffer[VECTOR_OFF..VECTOR_OFF + |Encode(Kernel, args)|] == Encode(Kernel, args)
  }

  function ScriptArgs(args: Args, path: seq<Byte>, image: seq<Byte>): Args {
    Rewritten(args, path, InterpreterOf(image), ArgOf(image))
  }

  /** The server answers the kernel's request with the vector that runs the script. */
  lemma RequestAnswered(buffer: seq<Byte>, path: seq<Byte>, image: seq<Byte>, args: Args)
    requires TextArgs(args) && IsText(path) && Fits(Kernel, args, VECTOR_OFF) && IsRequest(buffer, path, image, args)
    ensures
      var pathLen, imageLen, vectorLen := |path| + 1, |image|, |Encode(Kernel, args)|;
      && GoodRequest(buffer, pathLen, imageLen, vectorLen)
      && Decode(Server, buffer[VECTOR_OFF..VECTOR_OFF + vectorLen]) == Some(args)
      && Answer(buffer, pathLen, imageLen, vectorLen)
         == if IsScript(image) then Some(ScriptArgs(args, path, image)) else None
  {
    var pathLen := |path| + 1;
    assert buffer[pathLen - 1] == buffer[..pathLen][|path|] == 0;
    assert buffer[0] == buffer[..pathLen][0] == path[0];
    EncodedSize(Kernel, args);
    WholeIff(Kernel, args.argv);
    WholeIff(Kernel, args.envp);
    RoundTripIff(Kernel, Server, args, VECTOR_OFF);
    UpToZeroOfText(path);
  }

  /** When a script can be run, given memory. */
  predicate CanRun(path: seq<Byte>, args: Args, image: seq<Byte>) {
    && 0 < |path| < MAX_PATH && IsScript(image)
    && Fits(Kernel, args, VECTOR_OFF) && Fits(Server, ScriptArgs(args, path, image), VECTOR_OFF) && NoneLong(args)
  }

  /**
  When the server frees the interpreter's path twice, given memory: the rewritten vector
  is allowed but does not fit.
  */
  predicate FreesTwice(path: seq<Byte>, args: Args, image: seq<Byte>) {
    && 0 < |path| < MAX_PATH && IsScript(image) && Fits(Kernel, args, VECTOR_OFF)
    && InLimits(ScriptArgs(args, path, image)) && !Fits(Server, ScriptArgs(args, path, image), VECTOR_OFF)
  }

  /** linux_exec_prepare_shebang up to the call of the server. */
  method SendRequest(path: seq<Byte>, args: Args, image: seq<Byte>)
    returns (r: Status, buffer: array<Byte>, vectorLen: nat)
    requires 0 < |path| < MAX_PATH && 0 < |image| <= SHEBANG_MAX
    ensures fresh(buffer) && buffer.Length == BUFFER_SIZE
    ensures r.Ok? <==> Fits(Kernel, args, VECTOR_OFF)
    ensures r.Ok? ==> vectorLen == |Encode(Kernel, args)| && IsRequest(buffer[..], path, image, args)
  {
    buffer := new Byte[BUFFER_SIZE](_ => 0);
    Write(buffer, 0, path + [0]);
    ghost var first := buffer[..];
    WrittenSlice(seq(BUFFER_SIZE, _ => 0), first, 0, path + [0]);
    Write(buffer, MAX_PATH, image);
    ghost var second := buffer[..];
    WrittenSlice(first, second, MAX_PATH, image);
    r, vectorLen := Serialize(Kernel, buffer, VECTOR_OFF, args);
    if r.Ok? {
      WrittenSlice(second, buffer[..], VECTOR_OFF, Encode(Kernel, args));
      RequestIs(first, second, buffer[..], path, image, args);
    }
  }

  lemma RequestIs(first: seq<Byte>, second: seq<Byte>, third: seq<Byte>, path: seq<Byte>, image: seq<Byte>, args: Args)
    requires |first| == |second| == |third| == BUFFER_SIZE && 0 < |path| < MAX_PATH && 0 < |image| <= SHEBANG_MAX
    requires first[..|path| + 1] == path + [0]
    requires second[..MAX_PATH] == first[..MAX_PATH] && second[MAX_PATH..MAX_PATH + |image|] == image
    requires VECTOR_OFF + |Encode(Kernel, args)| <= BUFFER_SIZE && third[..VECTOR_OFF] == second[..VECTOR_OFF]
    requires third[VECTOR_OFF..VECTOR_OFF + |Encode(Kernel, args)|] == Encode(Kernel, args)
    ensures IsRequest(third, path, image, args)
  {
    assert third[..VECTOR_OFF][..|path| + 1] == third[..|path| + 1];
    assert second[..VECTOR_OFF][..|path| + 1] == second[..|path| + 1] == second[..MAX_PATH][..|path| + 1];
    assert first[..MAX_PATH][..|path| + 1] == first[..|path| + 1];
    assert third[..VECTOR_OFF][MAX_PATH..MAX_PATH + |image|] == third[MAX_PATH..MAX_PATH + |image|];
    assert second[..VECTOR_OFF][MAX_PATH..MAX_PATH + |image|] == second[MAX_PATH..MAX_PATH + |image|];
  }

  /**
  linux_exec_prepare_shebang, with the server's part.  Whatever the vector, the
  kernel gets back the interpreter's path and the vector that runs the script, or
  an error; and it gets an answer, given memory, exactly if everything fits and no
  string is longer than the server measures.
  */
  method PrepareShebang(path: seq<Byte>, args: Args, image: seq<Byte>, serverGrants: nat, grants: nat)
    returns (r: Status, path': seq<Byte>, args': Args, stage: Stage, freed: multiset<Str>)
    requires TextArgs(args) && IsText(path)
    ensures freed != multiset(Allocated(stage)) ==> FreesTwice(path, args, Prefix(image))
    ensures FreesTwice(path, args, Prefix(image)) && serverGrants >= ENOUGH ==> freed != multiset(Allocated(stage))
    ensures r.Ok? ==>
              && CanRun(path, args, Prefix(image))
              && path' == InterpreterOf(Prefix(image)) && args' == ScriptArgs(args, path, Prefix(image))
    ensures CanRun(path, args, Prefix(image)) && serverGrants >= ENOUGH && grants >= ENOUGH ==> r.Ok?
  {
    path', args', stage, freed := path, args, Start, multiset{};
    assert multiset(Allocated(stage)) == freed;
    if path == [] || |path| >= MAX_PATH || image == [] {
      return Invalid, path', args', stage, freed;
    }
    var start := Prefix(image);
    var buffer, pathLen, vectorLen;
    r, buffer, pathLen, vectorLen, stage, freed := AskServer(path, args, start, serverGrants);
    if r.Ok? {
      r, path', args' := ReadAnswer(buffer, pathLen, vectorLen, ScriptArgs(args, path, start), path, args, grants);
    }
  }

  /** When the server answers, given memory. */
  predicate CanAnswer(path: seq<Byte>, args: Args, image: seq<Byte>) {
    && IsScript(image)
    && Fits(Kernel, args, VECTOR_OFF) && Fits(Server, ScriptArgs(args, path, image), VECTOR_OFF)
  }

  /** The kernel's request, and the server's part. */
  method AskServer(path: seq<Byte>, args: Args, image: seq<Byte>, grants: nat)
    returns (r: Status, buffer: array<Byte>, pathLen: nat, vectorLen: nat, stage: Stage, freed: multiset<Str>)
    requires TextArgs(args) && IsText(path) && 0 < |path| < MAX_PATH && 0 < |image| <= SHEBANG_MAX
    ensures buffer.Length == BUFFER_SIZE
    ensures freed != multiset(Allocated(stage)) ==> FreesTwice(path, args, image)
    ensures FreesTwice(path, args, image) && grants >= ENOUGH ==> freed != multiset(Allocated(stage))
    ensures r.Ok? ==> CanAnswer(path, args, image)
    ensures CanAnswer(path, args, image) && grants >= ENOUGH ==> r.Ok?
    ensures r.Ok? ==>
              var goal := ScriptArgs(args, path, image);
              && HoldsAnswer(buffer[..], goal, pathLen, vectorLen)
              && goal.argv[0] == InterpreterOf(image) && IsText(goal.argv[0])
              && Decode(Kernel, Encode(Server, goal)) == if NoneLong(args) then Some(goal) else None
  {
    stage, freed, pathLen := Start, multiset{}, 0;
    assert multiset(Allocated(stage)) == freed;
    r, buffer, vectorLen := SendRequest(path, args, image);
    if !r.Ok? {
      return;
    }
    ghost var request := buffer[..];
    ServerPart(request, path, image, args);
    r, pathLen, vectorLen, stage, freed := Prepare(buffer, |path| + 1, |image|, vectorLen, grants);
    if r.Ok? {
      KernelPart(request, path, image, args, ScriptArgs(args, path, image));
    }
  }

  /** What the server makes of the kernel's request. */
  lemma ServerPart(request: seq<Byte>, path: seq<Byte>, image: seq<Byte>, args: Args)
    requires TextArgs(args) && IsText(path) && Fits(Kernel, args, VECTOR_OFF) && IsRequest(request, path, image, args)
    ensures
      var pathLen, imageLen, vectorLen := |path| + 1, |image|, |Encode(Kernel, args)|;
      var goal := ScriptArgs(args, path, image);
      && (Answers(request, pathLen, imageLen, vectorLen) <==> IsScript(image) && Fits(Server, goal, VECTOR_OFF))
      && (Answers(request, pathLen, imageLen, vectorLen) ==>
            Answer(request, pathLen, imageLen, vectorLen) == Some(goal))
      && (Takes(request, pathLen, imageLen, vectorLen) <==> IsScript(image) && InLimits(goal))
  {
    RequestAnswered(request, path, image, args);
  }

  /** What the kernel makes of the answer. */
  lemma KernelPart(request: seq<Byte>, path: seq<Byte>, image: seq<Byte>, args: Args, goal: Args)
    requires TextArgs(args) && IsText(path) && Fits(Kernel, args, VECTOR_OFF) && IsRequest(request, path, image, args)
    requires Answers(request, |path| + 1, |image|, |Encode(Kernel, args)|)
    requires Answer(request, |path| + 1, |image|, |Encode(Kernel, args)|) == Some(goal)
    ensures goal.argv != [] && goal.argv[0] == InterpreterOf(image) && IsText(goal.argv[0])
    ensures Decode(Kernel, Encode(Server, goal)) == if NoneLong(args) then Some(goal) else None
  {
    RequestAnswered(request, path, image, args);
    KernelReadsAnswer(request, |path| + 1, |image|, |Encode(Kernel, args)|);
    AnswerIsText(request, |path| + 1, |image|, |Encode(Kernel, args)|);
    AnswerPath(request, |path| + 1, |image|, |Encode(Kernel, args)|);
  }

  /** The rest of linux_exec_prepare_shebang. */
  method ReadAnswer(buffer: array<Byte>, pathLen: nat, vectorLen: nat, ghost answer: Args, path: seq<Byte>, args: Args,
                    grants: nat)
    returns (r: Status, path': seq<Byte>, args': Args)
    requires buffer.Length == BUFFER_SIZE && HoldsAnswer(buffer[..], answer, pathLen, vectorLen)
    requires IsText(answer.argv[0])
    ensures r.Ok? ==> path' == answer.argv[0] && Decode(Kernel, Encode(Server, answer)) == Some(args')
    ensures grants >= ENOUGH && Decode(Kernel, Encode(Server, answer)).Some? ==> r.Ok?
  {
    path', args' := path, args;
    ghost var b := buffer[..];
    assert buffer[pathLen - 1] == b[..pathLen][pathLen - 1] && b[..pathLen] == buffer[..pathLen];
    assert b[VECTOR_OFF..VECTOR_OFF + vectorLen] == buffer[VECTOR_OFF..VECTOR_OFF + vectorLen];
    if buffer[pathLen - 1] != 0 {
      return Invalid, path', args';
    }
    path' := UpToZero(buffer[..pathLen]);
    UpToZeroOfText(answer.argv[0]);
    var left;
    r, args', left := Deserialize(Kernel, buffer, VECTOR_OFF, vectorLen, grants);
  }

  lemma ShortScript()
    ensures
      var image: seq<Byte> := [35, 33, 47, 105];
      IsScript(image) && InterpreterOf(image) == [47, 105] && ArgOf(image) == None
  {
    var image: seq<Byte> := [35, 33, 47, 105];
    LineOfIs(image, 4);
    assert LineOf(image) == image && image[2..] == [47, 105];
    var line: seq<Byte> := [47, 105];
    assert ShebangLine(image) == line && SkipBlanks(line) == line;
    assert line[1..] == [105] && line[1..][1..] == [];
    assert WordOf(line[1..]) == [105] && WordOf(line) == [47] + [105];
    assert AfterWord(line[1..]) == [] && AfterWord(line) == [];
    assert SkipBlanks([]) == [] && TrimEnd([]) == [];
  }

  lemma {:induction false} FewSizes(side: Side, ss: seq<seq<Byte>>)
    requires forall i :: 0 <= i < |ss| ==> |ss[i]| <= 5000
    ensures Small(side, ss) && Weight(side, ss) <= |ss| * 5001 && |EncodeMany(side, ss)| <= |ss| * 5009
  {
    if ss != [] {
      FewSizes(side, ss[1..]);
    }
  }

  /** A few strings of moderate length fit. */
  lemma FewFit(side: Side, args: Args)
    requires 0 < |args.argv| <= 3 && args.envp == [] && forall i :: 0 <= i < |args.argv| ==> |args.argv[i]| <= 5000
    ensures Fits(side, args, VECTOR_OFF)
  {
    FewSizes(side, args.argv);
    EncodedSize(side, args);
  }

  lemma {:induction false} SevenSizes(side: Side, ss: seq<seq<Byte>>)
    requires forall i :: 0 <= i < |ss| ==> |ss[i]| == 7
    ensures Small(side, ss) && Weight(side, ss) == |ss| * 8 && |EncodeMany(side, ss)| == |ss| * 16
  {
    if ss != [] {
      SevenSizes(side, ss[1..]);
    }
  }

  lemma PathSizes(a: seq<Byte>, b: seq<Byte>)
    requires |a| == |b| == 2
    ensures Weight(Server, [a, b]) == 6 && |EncodeMany(Server, [a, b])| == 22
  {
    assert [a, b][1..] == [b] && [b][1..] == [];
    assert Weight(Server, [b]) == 3 && |EncodeMany(Server, [b])| == 11;
  }

  /**
  A request that fills the buffer exactly: its rewritten vector is within the
  limits but does not fit, so that the server fails after the rewrite.
  */
  lemma FullRequest()
    ensures
      var path: seq<Byte>, image: seq<Byte>, seven: seq<Byte> := [47, 115], [35, 33, 47, 105], seq(7, _ => 97);
      var args := Args([seven], seq(49151, _ => seven));
      TextArgs(args) && IsText(path) && FreesTwice(path, args, image)
  {
    var path: seq<Byte>, image: seq<Byte>, seven: seq<Byte> := [47, 115], [35, 33, 47, 105], seq(7, _ => 97);
    var args := Args([seven], seq(49151, _ => seven));
    ShortScript();
    SevenSizes(Kernel, args.argv);
    SevenSizes(Kernel, args.envp);
    SevenSizes(Server, args.envp);
    EncodedSize(Kernel, args);
    var goal := ScriptArgs(args, path, image);
    assert goal.argv == [[47, 105], path] && goal.envp == args.envp;
    PathSizes([47, 105], path);
    EncodedSize(Server, goal);
  }

  /** A script "#!/i" at "/s" run with one argument of 4097 bytes: everything fits, and yet it cannot be run. */
  lemma LongStringRefused()
    ensures
      var path: seq<Byte>, image: seq<Byte> := [47, 115], [35, 33, 47, 105];
      var args := Args([[115], seq(4097, _ => 97)], []);
      && TextArgs(args) && IsText(path) && Fits(Kernel, args, VECTOR_OFF)
      && IsScript(image) && Fits(Server, ScriptArgs(args, path, image), VECTOR_OFF) && !CanRun(path, args, image)
  {
    var path: seq<Byte>, image: seq<Byte> := [47, 115], [35, 33, 47, 105];
    var long: seq<Byte> := seq(4097, _ => 97);
    var args := Args([[115], long], []);
    assert args.argv[1] == long;
    ShortScript();
    FewFit(Kernel, args);
    var goal := ScriptArgs(args, path, image);
    assert goal.argv == [[47, 105], path, long];
    FewFit(Server, goal);
  }
}
