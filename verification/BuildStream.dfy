/**
 The byte stream a build identity is hashed from: length-prefixed names and values, so that no two lists
 of fields share a stream.
 */
module BuildStream {
  type Byte = b: nat | b < 256
  type Bytes = seq<Byte>

  datatype Option<T> = None | Some(value: T)

  const LIMIT := 0x1_0000_0000_0000_0000

  /** `n` in `k` little-endian bytes. */
  function Le(n: nat, k: nat): (b: Bytes)
    ensures |b| == k
  {
    if k == 0 then [] else [n % 256] + Le(n / 256, k - 1)
  }

  function FromLe(b: Bytes): nat {
    if b == [] then 0 else b[0] + 256 * FromLe(b[1..])
  }

  function Power(k: nat): (p: nat)
    ensures p > 0
  {
    if k == 0 then 1 else 256 * Power(k - 1)
  }

  lemma {:induction false} LeRoundTrip(n: nat, k: nat)
    requires n < Power(k)
    ensures FromLe(Le(n, k)) == n
  {
    if k > 0 {
      LeRoundTrip(n / 256, k - 1);
      assert Le(n, k)[1..] == Le(n / 256, k - 1);
    }
  }

  lemma Power8()
    ensures Power(8) == LIMIT && Power(4) == 0x1_0000_0000
  {
    assert Power(2) == 65536;
    assert Power(4) == 65536 * 65536;
    assert Power(6) == Power(4) * 65536;
  }

  // ---------------------------------------------------------------- chunks and fields

  datatype Field = Field(name: Bytes, value: Bytes) {
    predicate Valid() {
      |name| < LIMIT && |value| < LIMIT
    }
  }

  predicate AllValid(fs: seq<Field>) {
    forall i :: 0 <= i < |fs| ==> fs[i].Valid()
  }

  function Chunk(x: Bytes): Bytes {
    Le(|x|, 8) + x
  }

  function Encode(f: Field): Bytes {
    Chunk(f.name) + Chunk(f.value)
  }

  function EncodeAll(fs: seq<Field>): Bytes {
    if fs == [] then [] else EncodeAll(fs[..|fs| - 1]) + Encode(fs[|fs| - 1])
  }

  /** The leading chunk, and what follows it. */
  function Unchunk(b: Bytes): (r: Option<(Bytes, Bytes)>)
    ensures r.Some? ==> |r.value.1| + 8 <= |b|
  {
    if |b| < 8 then None
    else
      var n := FromLe(b[..8]);
      if |b| < 8 + n then None else Some((b[8..8 + n], b[8 + n..]))
  }

  function Decode(b: Bytes): Option<seq<Field>>
    decreases |b|
  {
    if b == [] then Some([])
    else
      var name := Unchunk(b);
      if name.None? then None
      else
        var value := Unchunk(name.value.1);
        if value.None? then None
        else
          var rest := Decode(value.value.1);
          if rest.None? then None else Some([Field(name.value.0, value.value.0)] + rest.value)
  }

  lemma UnchunkChunk(x: Bytes, rest: Bytes)
    requires |x| < LIMIT
    ensures Unchunk(Chunk(x) + rest) == Some((x, rest))
  {
    hide Le, FromLe;
    var b := Chunk(x) + rest;
    Power8();
    LeRoundTrip(|x|, 8);
    assert b[..8] == Le(|x|, 8);
    assert b[8..8 + |x|] == x && b[8 + |x|..] == rest;
  }

  lemma DecodeField(f: Field, rest: Bytes)
    requires f.Valid()
    ensures Decode(Encode(f) + rest) ==
      if Decode(rest).None? then None else Some([f] + Decode(rest).value)
  {
    hide Unchunk, Chunk;
    var b := Encode(f) + rest;
    assert b == Chunk(f.name) + (Chunk(f.value) + rest);
    UnchunkChunk(f.name, Chunk(f.value) + rest);
    UnchunkChunk(f.value, rest);
  }

  lemma {:induction false} DecodeAppends(fs: seq<Field>, rest: Bytes)
    requires AllValid(fs)
    requires Decode(rest).Some?
    ensures Decode(EncodeAll(fs) + rest) == Some(fs + Decode(rest).value)
    decreases |fs|
  {
    hide Decode, Encode;
    if fs == [] {
      assert EncodeAll(fs) + rest == rest;
      assert fs + Decode(rest).value == Decode(rest).value;
    } else {
      var most, last := fs[..|fs| - 1], fs[|fs| - 1];
      DecodeField(last, rest);
      DecodeAppends(most, Encode(last) + rest);
      assert EncodeAll(fs) + rest == EncodeAll(most) + (Encode(last) + rest);
      assert fs + Decode(rest).value == most + ([last] + Decode(rest).value);
    }
  }

  lemma DecodeNothing()
    ensures Decode([]) == Some([])
  {}

  /** Reading a stream back gives exactly the fields that were fed. */
  lemma DecodeEncoded(fs: seq<Field>)
    requires AllValid(fs)
    ensures Decode(EncodeAll(fs)) == Some(fs)
  {
    hide Decode, EncodeAll;
    DecodeNothing();
    DecodeAppends(fs, []);
    assert EncodeAll(fs) + [] == EncodeAll(fs) && fs + [] == fs;
  }

  // ---------------------------------------------------------------- the build inputs

  datatype Inputs = Inputs(abi: nat, target: Bytes, archs: Bytes, mathMode: Bytes, compiler: Bytes, files: seq<(Bytes, Bytes)>) {
    predicate Valid() {
      && abi < 0x1_0000_0000
      && |target| < LIMIT && |archs| < LIMIT && |mathMode| < LIMIT && |compiler| < LIMIT
      && forall i :: 0 <= i < |files| ==> |files[i].0| < LIMIT && |files[i].1| < LIMIT
    }
  }

  /** Field names, and the domain tag, as ASCII. */
  function Ascii(s: string): (b: Bytes)
    ensures |b| == |s|
  {
    seq<Byte>(|s|, i requires 0 <= i < |s| => s[i] as int % 256)
  }

  function FileFields(files: seq<(Bytes, Bytes)>): (fs: seq<Field>)
    ensures |fs| == 2 * |files|
    ensures forall i :: 0 <= i < |files| ==>
      fs[2 * i] == Field(Ascii("path"), files[i].0) && fs[2 * i + 1] == Field(Ascii("content"), files[i].1)
  {
    if files == [] then []
    else
      var k := |files| - 1;
      FileFields(files[..k]) + [Field(Ascii("path"), files[k].0), Field(Ascii("content"), files[k].1)]
  }

  function HeadFields(i: Inputs): (fs: seq<Field>)
    ensures |fs| == 6
  {
    [Field(Ascii("domain"), Ascii("imparo-cuda-native-build-v1")),
     Field(Ascii("backend_abi"), Le(i.abi, 4)),
     Field(Ascii("target"), i.target),
     Field(Ascii("archs"), i.archs),
     Field(Ascii("math_mode"), i.mathMode),
     Field(Ascii("compiler"), i.compiler)]
  }

  /** The bytes that are hashed. */
  function Stream(i: Inputs): Bytes {
    EncodeAll(HeadFields(i) + FileFields(i.files))
  }

  lemma {:induction false} FileFieldsValid(files: seq<(Bytes, Bytes)>)
    requires forall i :: 0 <= i < |files| ==> |files[i].0| < LIMIT && |files[i].1| < LIMIT
    ensures AllValid(FileFields(files))
  {
    if files != [] {
      var k := |files| - 1;
      FileFieldsValid(files[..k]);
      assert |Ascii("path")| == 4 && |Ascii("content")| == 7;
      assert Field(Ascii("path"), files[k].0).Valid() && Field(Ascii("content"), files[k].1).Valid();
    }
  }

  lemma HeadFieldsValid(i: Inputs)
    requires i.Valid()
    ensures AllValid(HeadFields(i))
  {
    hide Ascii, Le;
    assert |"imparo-cuda-native-build-v1"| == 27 && |"backend_abi"| == 11 && |"math_mode"| == 9;
    assert |"domain"| == 6 && |"target"| == 6 && |"archs"| == 5 && |"compiler"| == 8;
  }

  lemma FieldsValid(i: Inputs)
    requires i.Valid()
    ensures AllValid(HeadFields(i) + FileFields(i.files))
  {
    HeadFieldsValid(i);
    FileFieldsValid(i.files);
  }

  lemma FilesFromFields(a: seq<(Bytes, Bytes)>, b: seq<(Bytes, Bytes)>)
    requires FileFields(a) == FileFields(b)
    ensures a == b
  {
    forall i | 0 <= i < |a| ensures a[i] == b[i] {
      assert FileFields(a)[2 * i] == FileFields(b)[2 * i];
      assert FileFields(a)[2 * i + 1] == FileFields(b)[2 * i + 1];
    }
  }

  /** Two builds hash the same bytes exactly when every input is the same. */
  lemma StreamIsInjective(a: Inputs, b: Inputs)
    requires a.Valid() && b.Valid()
    ensures Stream(a) == Stream(b) <==> a == b
  {
    hide EncodeAll, FileFields, Ascii, Le, Decode, AllValid;
    if Stream(a) == Stream(b) {
      FieldsValid(a);
      FieldsValid(b);
      var fa, fb := HeadFields(a) + FileFields(a.files), HeadFields(b) + FileFields(b.files);
      DecodeEncoded(fa);
      DecodeEncoded(fb);
      assert fa == fb;
      assert fa[..6] == HeadFields(a) && fb[..6] == HeadFields(b);
      assert fa[6..] == FileFields(a.files) && fb[6..] == FileFields(b.files);
      FilesFromFields(a.files, b.files);
      Power8();
      LeRoundTrip(a.abi, 4);
      LeRoundTrip(b.abi, 4);
      assert HeadFields(a)[1].value == HeadFields(b)[1].value;
      assert HeadFields(a)[2] == HeadFields(b)[2] && HeadFields(a)[3] == HeadFields(b)[3];
      assert HeadFields(a)[4] == HeadFields(b)[4] && HeadFields(a)[5] == HeadFields(b)[5];
    }
  }
}
