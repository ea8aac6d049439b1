/**
 SNI passthrough: extracting the server name from a TLS ClientHello, and replaying the bytes
 that were read to find it. The formats printed here are those of section 6.2.1 (records) and
 section 7.4.1.2 (ClientHello) of RFC 5246 and section 3 of RFC 6066 (server_name).
 */
module Sni {
  import opened Common

  type Byte = b: int | 0 <= b < 256
  type Bytes = seq<Byte>

  /** `Panic` is the out-of-range index that ends the calling goroutine. */
  datatype Outcome = Name(name: Bytes) | Panic

  // ----- What extraction computes -----

  function U16(data: Bytes, pos: nat): nat
    requires pos + 2 <= |data|
  {
    data[pos] as int * 256 + data[pos + 1] as int
  }

  /** The walk over extensions: from `pos` up to `end`, but never past the data. */
  function Scan(data: Bytes, pos: nat, end: nat): Bytes
    decreases |data| - pos
  {
    if pos + 4 > end || pos + 4 > |data| then []
    else
      var kind, len, body := U16(data, pos), U16(data, pos + 2), pos + 4;
      if kind == 0 && body + len <= |data| then
        if len < 5 then []
        else
          var n := U16(data, body + 3);
          if body + 5 + n <= |data| then data[body + 5..body + 5 + n]
          else Scan(data, body + len, end)
      else Scan(data, body + len, end)
  }

  function FromExtensions(data: Bytes, pos: nat): Bytes {
    if pos + 2 > |data| then [] else Scan(data, pos + 2, pos + 2 + U16(data, pos))
  }

  function FromCompression(data: Bytes, pos: nat): Bytes {
    if pos + 1 > |data| then [] else FromExtensions(data, pos + 1 + data[pos])
  }

  function FromCiphers(data: Bytes, pos: nat): Bytes {
    if pos + 2 > |data| then [] else FromCompression(data, pos + 2 + U16(data, pos))
  }

  const SESSION := 43  // record header, handshake header, version and random end here

  function FromSession(data: Bytes): Bytes {
    if SESSION + 1 > |data| then [] else FromCiphers(data, SESSION + 1 + data[SESSION])
  }

  function ServerName(data: Bytes): Outcome {
    if |data| < 5 || data[0] != 0x16 || |data| < 5 + U16(data, 3) then Name([])
    else if |data| == 5 then Panic
    else if data[5] != 0x01 then Name([])
    else Name(FromSession(data))
  }

  predicate BareHeader(data: Bytes) {
    |data| == 5 && data[0] == 0x16 && data[3] == 0 && data[4] == 0
  }

  /** Every index is in range, except on one input: a bare header announcing an empty record. */
  method ExtractSNI(data: Bytes) returns (r: Outcome)
    ensures r == ServerName(data)
    ensures r.Panic? <==> BareHeader(data)
  {
    if |data| < 5 {
      return Name([]);
    }
    if data[0] != 0x16 {
      return Name([]);
    }
    if |data| < 5 + U16(data, 3) {
      return Name([]);
    }
    var pos := 5;
    if pos >= |data| {
      return Panic;  // reading the handshake type is out of range
    }
    if data[pos] != 0x01 {
      return Name([]);
    }
    pos := pos + 4;
    if pos + 35 > |data| {
      return Name([]);
    }
    pos := pos + 2 + 32;
    var sessionLen := data[pos];
    pos := pos + 1 + sessionLen;
    if pos + 2 > |data| {
      return Name([]);
    }
    var cipherLen := U16(data, pos);
    pos := pos + 2 + cipherLen;
    if pos + 1 > |data| {
      return Name([]);
    }
    var compLen := data[pos];
    pos := pos + 1 + compLen;
    if pos + 2 > |data| {
      return Name([]);
    }
    var extTotal := U16(data, pos);
    pos := pos + 2;
    var name := ScanExtensions(data, pos, pos + extTotal);
    return Name(name);
  }

  /** The loop over the extensions. */
  method ScanExtensions(data: Bytes, start: nat, end: nat) returns (name: Bytes)
    ensures name == Scan(data, start, end)
  {
    var pos := start;
    while pos + 4 <= end && pos + 4 <= |data|
      invariant Scan(data, pos, end) == Scan(data, start, end)
      decreases |data| - pos
    {
      var extType := U16(data, pos);
      var extLen := U16(data, pos + 2);
      pos := pos + 4;
      if extType == 0x0000 && pos + extLen <= |data| {
        if extLen < 5 {
          return [];
        }
        var nameLen := U16(data, pos + 3);
        if pos + 5 + nameLen <= |data| {
          return data[pos + 5..pos + 5 + nameLen];
        }
      }
      pos := pos + extLen;
    }
    return [];
  }

  // ----- Printing a ClientHello -----

  function Enc16(n: nat): Bytes
    requires n < 65536
  {
    [n / 256, n % 256]
  }

  function Enc24(n: nat): Bytes
    requires n < 16777216
  {
    [n / 65536, n / 256 % 256, n % 256]
  }

  function Vec8(s: Bytes): Bytes
    requires |s| < 256
  {
    [|s| as Byte] + s
  }

  function Vec16(s: Bytes): Bytes
    requires |s| < 65536
  {
    Enc16(|s|) + s
  }

  datatype Extension = Extension(kind: nat, body: Bytes) {
    predicate Fits() {
      kind < 65536 && |body| < 65536
    }
  }

  predicate AllFit(exts: seq<Extension>) {
    forall i :: 0 <= i < |exts| ==> exts[i].Fits()
  }

  function PrintExtensions(exts: seq<Extension>): Bytes
    requires AllFit(exts)
  {
    if exts == [] then []
    else Enc16(exts[0].kind) + Vec16(exts[0].body) + PrintExtensions(exts[1..])
  }

  /** The entries of a server_name list; host names have type 0. */
  function PrintNames(names: seq<Bytes>): Bytes
    requires forall i :: 0 <= i < |names| ==> |names[i]| < 65536
  {
    if names == [] then [] else [0] + Vec16(names[0]) + PrintNames(names[1..])
  }

  /** A server_name extension that carries these host names. */
  ghost predicate IsServerNames(e: Extension, names: seq<Bytes>) {
    && e.kind == 0 && names != [] && e.Fits()
    && (forall i :: 0 <= i < |names| ==> |names[i]| < 65536)
    && |PrintNames(names)| < 65536 && e.body == Vec16(PrintNames(names))
  }

  datatype Hello = Hello(
    recordVersion: Bytes, version: Bytes, random: Bytes,
    sessionId: Bytes, ciphers: Bytes, compression: Bytes, extensions: seq<Extension>)
  {
    ghost predicate Fits() {
      && |recordVersion| == 2 && |version| == 2 && |random| == 32
      && |sessionId| < 256 && |ciphers| < 65536 && |compression| < 256
      && AllFit(extensions)
      && |PrintExtensions(extensions)| < 65536
      && Size() + 4 < 65536
    }

    /** The length of the message body. */
    ghost function Size(): nat
      requires AllFit(extensions)
    {
      40 + |sessionId| + |ciphers| + |compression| + |PrintExtensions(extensions)|
    }

    /** Record header, handshake header, and the fields of the message, in order. */
    ghost function Pieces(): seq<Bytes>
      requires Fits()
    {
      [[0x16], recordVersion, Enc16(Size() + 4), [0x01] + Enc24(Size()), version + random,
       Vec8(sessionId), Vec16(ciphers), Vec8(compression), Vec16(PrintExtensions(extensions))]
    }

    /** One handshake record holding the whole message. */
    ghost function Print(): Bytes
      requires Fits()
    {
      Flatten(Pieces())
    }
  }

  function Flatten(pieces: seq<Bytes>): Bytes {
    if pieces == [] then [] else pieces[0] + Flatten(pieces[1..])
  }

  // ----- Reading back what was printed -----

  /** The bytes `s` stand at position `pos`. */
  ghost predicate Stands(data: Bytes, pos: nat, s: Bytes) {
    pos + |s| <= |data| && forall i {:trigger s[i]} :: 0 <= i < |s| ==> data[pos + i] == s[i]
  }

  lemma StandsSplit(data: Bytes, pos: nat, a: Bytes, b: Bytes)
    requires Stands(data, pos, a + b)
    ensures Stands(data, pos, a) && Stands(data, pos + |a|, b)
  {
    var ab := a + b;
    forall i | 0 <= i < |a|
      ensures data[pos + i] == a[i]
    {
      assert ab[i] == a[i];
    }
    forall i | 0 <= i < |b|
      ensures data[pos + |a| + i] == b[i]
    {
      assert ab[|a| + i] == b[i];
    }
  }

  lemma StandsSlice(data: Bytes, pos: nat, s: Bytes)
    requires Stands(data, pos, s)
    ensures data[pos..pos + |s|] == s
  {
  }

  lemma StandsByte(data: Bytes, pos: nat, b: Byte)
    requires Stands(data, pos, [b])
    ensures data[pos] == b
  {
    assert [b][0] == b;
  }

  lemma Stands16(data: Bytes, pos: nat, n: nat)
    requires n < 65536 && Stands(data, pos, Enc16(n))
    ensures U16(data, pos) == n
  {
    assert Enc16(n)[0] == n / 256 && Enc16(n)[1] == n % 256;
  }

  lemma StandsVec16(data: Bytes, pos: nat, s: Bytes)
    requires |s| < 65536 && Stands(data, pos, Vec16(s))
    ensures pos + 2 + |s| <= |data| && U16(data, pos) == |s| && Stands(data, pos + 2, s)
  {
    StandsSplit(data, pos, Enc16(|s|), s);
    Stands16(data, pos, |s|);
  }

  lemma StandsVec8(data: Bytes, pos: nat, s: Bytes)
    requires |s| < 256 && Stands(data, pos, Vec8(s))
    ensures pos + 1 + |s| <= |data| && data[pos] == |s| && Stands(data, pos + 1, s)
  {
    StandsSplit(data, pos, [|s| as Byte], s);
    StandsByte(data, pos, |s|);
  }

  /** The header of the first printed extension, and where the next one starts. */
  lemma FirstExtension(data: Bytes, pos: nat, exts: seq<Extension>)
    requires exts != [] && AllFit(exts) && Stands(data, pos, PrintExtensions(exts))
    ensures var e := exts[0];
      && pos + 4 + |e.body| <= |data|
      && |PrintExtensions(exts)| == 4 + |e.body| + |PrintExtensions(exts[1..])|
      && U16(data, pos) == e.kind && U16(data, pos + 2) == |e.body|
      && Stands(data, pos + 4, e.body)
      && Stands(data, pos + 4 + |e.body|, PrintExtensions(exts[1..]))
  {
    var e := exts[0];
    StandsSplit(data, pos, Enc16(e.kind) + Vec16(e.body), PrintExtensions(exts[1..]));
    StandsSplit(data, pos, Enc16(e.kind), Vec16(e.body));
    Stands16(data, pos, e.kind);
    StandsVec16(data, pos + 2, e.body);
  }

  /** The first name of a printed server_name extension is what the scan returns there. */
  lemma ScanReadsName(data: Bytes, pos: nat, end: nat, exts: seq<Extension>, names: seq<Bytes>)
    requires exts != [] && AllFit(exts) && Stands(data, pos, PrintExtensions(exts))
    requires IsServerNames(exts[0], names) && pos + |PrintExtensions(exts)| <= end
    ensures Scan(data, pos, end) == names[0]
  {
    FirstExtension(data, pos, exts);
    var list, first := PrintNames(names), names[0];
    assert list == [0] + Vec16(first) + PrintNames(names[1..]);
    StandsVec16(data, pos + 4, list);
    StandsSplit(data, pos + 6, [0] + Vec16(first), PrintNames(names[1..]));
    StandsSplit(data, pos + 6, [0], Vec16(first));
    StandsVec16(data, pos + 7, first);
    StandsSlice(data, pos + 9, first);
  }

  lemma ScanStep(data: Bytes, pos: nat, end: nat)
    requires pos + 4 <= end && pos + 4 <= |data| && U16(data, pos) != 0
    ensures Scan(data, pos, end) == Scan(data, pos + 4 + U16(data, pos + 2), end)
  {
  }

  lemma SkipOne(data: Bytes, pos: nat, end: nat, exts: seq<Extension>) returns (next: nat)
    requires exts != [] && AllFit(exts) && exts[0].kind != 0
    requires Stands(data, pos, PrintExtensions(exts)) && pos + |PrintExtensions(exts)| == end
    ensures Stands(data, next, PrintExtensions(exts[1..])) && next + |PrintExtensions(exts[1..])| == end
    ensures Scan(data, pos, end) == Scan(data, next, end)
  {
    FirstExtension(data, pos, exts);
    ScanStep(data, pos, end);
    next := pos + 4 + |exts[0].body|;
  }

  /** Extensions of other kinds are stepped over. */
  lemma {:induction false} ScanSkips(data: Bytes, pos: nat, end: nat, exts: seq<Extension>, k: nat) returns (next: nat)
    requires AllFit(exts) && k <= |exts| && forall i :: 0 <= i < k ==> exts[i].kind != 0
    requires Stands(data, pos, PrintExtensions(exts)) && pos + |PrintExtensions(exts)| == end
    ensures Stands(data, next, PrintExtensions(exts[k..])) && next + |PrintExtensions(exts[k..])| == end
    ensures Scan(data, pos, end) == Scan(data, next, end)
    decreases k
  {
    if k == 0 {
      next := pos;
      assert exts[0..] == exts;
    } else {
      var one := SkipOne(data, pos, end, exts);
      next := ScanSkips(data, one, end, exts[1..], k - 1);
      assert exts[1..][k - 1..] == exts[k..];
    }
  }

  lemma ScanFinds(data: Bytes, pos: nat, end: nat, exts: seq<Extension>, k: nat, names: seq<Bytes>)
    requires AllFit(exts) && k < |exts| && forall i :: 0 <= i < k ==> exts[i].kind != 0
    requires Stands(data, pos, PrintExtensions(exts)) && pos + |PrintExtensions(exts)| == end
    requires IsServerNames(exts[k], names)
    ensures Scan(data, pos, end) == names[0]
  {
    var next := ScanSkips(data, pos, end, exts, k);
    ScanReadsName(data, next, end, exts[k..], names);
  }

  lemma ScanFindsNothing(data: Bytes, pos: nat, end: nat, exts: seq<Extension>)
    requires AllFit(exts) && forall i :: 0 <= i < |exts| ==> exts[i].kind != 0
    requires Stands(data, pos, PrintExtensions(exts)) && pos + |PrintExtensions(exts)| == end
    ensures Scan(data, pos, end) == []
  {
    var next := ScanSkips(data, pos, end, exts, |exts|);
  }

  lemma FromSessionAt(data: Bytes, s: nat, c: nat, z: nat)
    requires 49 + s + c + z <= |data|
    requires data[43] == s && U16(data, 44 + s) == c && data[46 + s + c] == z
    ensures FromSession(data) == Scan(data, 49 + s + c + z, 49 + s + c + z + U16(data, 47 + s + c + z))
  {
  }

  lemma PrefixStands(data: Bytes, s: Bytes)
    requires s <= data
    ensures Stands(data, 0, s)
  {
  }

  lemma Peel(data: Bytes, pos: nat, p: Bytes, rest: seq<Bytes>)
    requires Stands(data, pos, Flatten([p] + rest))
    ensures Stands(data, pos, p) && Stands(data, pos + |p|, Flatten(rest))
    ensures |Flatten([p] + rest)| == |p| + |Flatten(rest)|
  {
    assert ([p] + rest)[1..] == rest;
    StandsSplit(data, pos, p, Flatten(rest));
  }

  /** What stands where in a message whose first five pieces take up nine and thirty-four bytes. */
  lemma ReadPieces(data: Bytes, t: Bytes, rv: Bytes, rl: Bytes, hh: Bytes, vr: Bytes,
                   s: Bytes, c: Bytes, z: Bytes, x: Bytes)
    requires |t| == 1 && |rv| == 2 && |rl| == 2 && |hh| == 4 && |vr| == 34
    requires Stands(data, 0, Flatten([t, rv, rl, hh, vr, s, c, z, x]))
    ensures Stands(data, 0, t) && Stands(data, 3, rl) && Stands(data, 5, hh)
    ensures Stands(data, 43, s) && Stands(data, 43 + |s|, c)
    ensures Stands(data, 43 + |s| + |c|, z) && Stands(data, 43 + |s| + |c| + |z|, x)
  {
    assert [t, rv, rl, hh, vr, s, c, z, x] == [t] + [rv, rl, hh, vr, s, c, z, x];
    Peel(data, 0, t, [rv, rl, hh, vr, s, c, z, x]);
    assert [rv, rl, hh, vr, s, c, z, x] == [rv] + [rl, hh, vr, s, c, z, x];
    Peel(data, 1, rv, [rl, hh, vr, s, c, z, x]);
    assert [rl, hh, vr, s, c, z, x] == [rl] + [hh, vr, s, c, z, x];
    Peel(data, 3, rl, [hh, vr, s, c, z, x]);
    assert [hh, vr, s, c, z, x] == [hh] + [vr, s, c, z, x];
    Peel(data, 5, hh, [vr, s, c, z, x]);
    assert [vr, s, c, z, x] == [vr] + [s, c, z, x];
    Peel(data, 9, vr, [s, c, z, x]);
    ReadVectors(data, 43, s, c, z, x);
  }

  lemma ReadVectors(data: Bytes, pos: nat, s: Bytes, c: Bytes, z: Bytes, x: Bytes)
    requires Stands(data, pos, Flatten([s, c, z, x]))
    ensures Stands(data, pos, s) && Stands(data, pos + |s|, c)
    ensures Stands(data, pos + |s| + |c|, z) && Stands(data, pos + |s| + |c| + |z|, x)
  {
    assert [s, c, z, x] == [s] + [c, z, x];
    Peel(data, pos, s, [c, z, x]);
    assert [c, z, x] == [c] + [z, x];
    Peel(data, pos + |s|, c, [z, x]);
    assert [z, x] == [z] + [x];
    Peel(data, pos + |s| + |c|, z, [x]);
    assert [x] == [x] + [];
    Peel(data, pos + |s| + |c| + |z|, x, []);
  }

  lemma VectorsReachExtensions(data: Bytes, sid: Bytes, ciphers: Bytes, comp: Bytes, x: Bytes) returns (pos: nat)
    requires |sid| < 256 && |ciphers| < 65536 && |comp| < 256 && |x| < 65536
    requires Stands(data, 43, Vec8(sid)) && Stands(data, 44 + |sid|, Vec16(ciphers))
    requires Stands(data, 46 + |sid| + |ciphers|, Vec8(comp))
    requires Stands(data, 47 + |sid| + |ciphers| + |comp|, Vec16(x))
    ensures Stands(data, pos, x) && FromSession(data) == Scan(data, pos, pos + |x|)
    ensures |data| >= pos + |x| == 49 + |sid| + |ciphers| + |comp| + |x|
  {
    StandsVec8(data, 43, sid);
    StandsVec16(data, 44 + |sid|, ciphers);
    StandsVec8(data, 46 + |sid| + |ciphers|, comp);
    StandsVec16(data, 47 + |sid| + |ciphers| + |comp|, x);
    FromSessionAt(data, |sid|, |ciphers|, |comp|);
    pos := 49 + |sid| + |ciphers| + |comp|;
  }

  lemma HeaderReads(data: Bytes, size: nat)
    requires size + 4 < 65536 && Stands(data, 0, [0x16]) && Stands(data, 3, Enc16(size + 4))
    requires Stands(data, 5, [0x01] + Enc24(size))
    ensures data[0] == 0x16 && U16(data, 3) == size + 4 && data[5] == 0x01
  {
    StandsByte(data, 0, 0x16);
    Stands16(data, 3, size + 4);
    StandsSplit(data, 5, [0x01], Enc24(size));
    StandsByte(data, 5, 0x01);
  }

  /** A printed hello followed by anything at all is read down to its extensions. */
  lemma HelloReachesExtensions(h: Hello, data: Bytes) returns (pos: nat)
    requires h.Fits() && h.Print() <= data
    ensures Stands(data, pos, PrintExtensions(h.extensions))
    ensures ServerName(data) == Name(Scan(data, pos, pos + |PrintExtensions(h.extensions)|))
    ensures pos + |PrintExtensions(h.extensions)| == 9 + h.Size()
  {
    var exts := PrintExtensions(h.extensions);
    PrefixStands(data, h.Print());
    ReadPieces(data, [0x16], h.recordVersion, Enc16(h.Size() + 4), [0x01] + Enc24(h.Size()), h.version + h.random,
               Vec8(h.sessionId), Vec16(h.ciphers), Vec8(h.compression), Vec16(exts));
    HeaderReads(data, h.Size());
    pos := VectorsReachExtensions(data, h.sessionId, h.ciphers, h.compression, exts);
  }

  /**
   Round trip: whatever the session id, ciphers, compression methods, other extensions before
   and after, further names and trailing bytes, the name extracted is the first one printed.
   Extension `k` is the first server_name extension of the hello.
   */
  lemma ExtractsFirstName(h: Hello, k: nat, names: seq<Bytes>, data: Bytes)
    requires h.Fits() && k < |h.extensions| && IsServerNames(h.extensions[k], names)
    requires forall i :: 0 <= i < k ==> h.extensions[i].kind != 0
    requires h.Print() <= data
    ensures ServerName(data) == Name(names[0])
  {
    var pos := HelloReachesExtensions(h, data);
    ScanFinds(data, pos, pos + |PrintExtensions(h.extensions)|, h.extensions, k, names);
  }

  /** Without a server_name extension there is no name, whatever bytes follow the record. */
  lemma NoExtensionNoName(h: Hello, data: Bytes)
    requires h.Fits() && forall i :: 0 <= i < |h.extensions| ==> h.extensions[i].kind != 0
    requires h.Print() <= data
    ensures ServerName(data) == Name([])
  {
    var pos := HelloReachesExtensions(h, data);
    ScanFindsNothing(data, pos, pos + |PrintExtensions(h.extensions)|, h.extensions);
  }

  /** A read that ends anywhere inside the record yields no name, and never a wrong one. */
  lemma TruncatedHelloHasNoName(h: Hello, k: nat)
    requires h.Fits() && k < |h.Print()|
    ensures ServerName(h.Print()[..k]) == Name([])
  {
    var data := h.Print();
    var cut := data[..k];
    PrefixStands(data, data);
    PrintLength(h);
    ReadPieces(data, [0x16], h.recordVersion, Enc16(h.Size() + 4), [0x01] + Enc24(h.Size()), h.version + h.random,
               Vec8(h.sessionId), Vec16(h.ciphers), Vec8(h.compression), Vec16(PrintExtensions(h.extensions)));
    HeaderReads(data, h.Size());
    assert k >= 5 ==> cut[0] == data[0] && U16(cut, 3) == U16(data, 3);
  }

  lemma PrintLength(h: Hello)
    requires h.Fits()
    ensures |h.Print()| == 9 + h.Size()
  {
    var p := h.Pieces();
    assert Flatten(p) == p[0] + Flatten(p[1..]);
    assert Flatten(p[1..]) == p[1] + Flatten(p[2..]);
    assert Flatten(p[2..]) == p[2] + Flatten(p[3..]);
    assert Flatten(p[3..]) == p[3] + Flatten(p[4..]);
    assert Flatten(p[4..]) == p[4] + Flatten(p[5..]);
    assert Flatten(p[5..]) == p[5] + Flatten(p[6..]);
    assert Flatten(p[6..]) == p[6] + Flatten(p[7..]);
    assert Flatten(p[7..]) == p[7] + Flatten(p[8..]);
    assert Flatten(p[8..]) == p[8] + Flatten(p[9..]);
  }

  // ----- What is found on input of any shape -----

  /** The header of an extension starts at `q`, before `end` and inside the data. */
  predicate HeaderAt(data: Bytes, q: nat, end: nat) {
    q + 4 <= end && q + 4 <= |data|
  }

  /** Where the extension whose header is at `q` says that it ends. */
  function ExtensionEnd(data: Bytes, q: nat): nat
    requires q + 4 <= |data|
  {
    q + 4 + U16(data, q + 2)
  }

  /** A server_name extension at `q` whose body is in the data. */
  predicate ServerNameAt(data: Bytes, q: nat, end: nat) {
    HeaderAt(data, q, end) && U16(data, q) == 0 && ExtensionEnd(data, q) <= |data|
  }

  /** The first name of the extension at `q`: its length and then its bytes, all in the data. */
  predicate HoldsName(data: Bytes, q: nat, end: nat, name: Bytes) {
    && ServerNameAt(data, q, end) && U16(data, q + 2) >= 5
    && U16(data, q + 7) == |name| && q + 9 + |name| <= |data| && data[q + 9..q + 9 + |name|] == name
  }

  /** An extension that the walk steps over: of another type, or too long for the data, or its name is. */
  predicate SteppedOver(data: Bytes, q: nat, end: nat) {
    && HeaderAt(data, q, end)
    && (ServerNameAt(data, q, end) ==> U16(data, q + 2) >= 5 && q + 9 + U16(data, q + 7) > |data|)
  }

  /** From `pos`, stepping from each extension to the end it gives, one comes to `q`. */
  ghost predicate Walks(data: Bytes, pos: nat, end: nat, q: nat)
    decreases |data| - pos
  {
    pos == q || (SteppedOver(data, pos, end) && Walks(data, ExtensionEnd(data, pos), end, q))
  }

  lemma {:induction false} ScanIsSound(data: Bytes, pos: nat, end: nat) returns (q: nat)
    requires Scan(data, pos, end) != []
    ensures Walks(data, pos, end, q) && HoldsName(data, q, end, Scan(data, pos, end))
    decreases |data| - pos
  {
    if SteppedOver(data, pos, end) {
      q := ScanIsSound(data, ExtensionEnd(data, pos), end);
    } else {
      q := pos;
    }
  }

  lemma {:induction false} ScanIsComplete(data: Bytes, pos: nat, end: nat, q: nat, name: Bytes)
    requires Walks(data, pos, end, q) && HoldsName(data, q, end, name)
    ensures Scan(data, pos, end) == name
    decreases |data| - pos
  {
    if pos != q {
      ScanIsComplete(data, ExtensionEnd(data, pos), end, q, name);
    }
  }

  /** A complete handshake record that starts a ClientHello, with its extensions from `start` to `end`. */
  predicate Block(data: Bytes, start: nat, end: nat) {
    && |data| > 43 && data[0] == 0x16 && |data| >= 5 + U16(data, 3) && data[5] == 0x01
    && var ciphers := 44 + data[43] as int;
       && ciphers + 2 <= |data|
       && var comp := ciphers + 2 + U16(data, ciphers);
          && comp + 1 <= |data|
          && start == comp + 1 + data[comp] + 2 <= |data|
          && end == start + U16(data, start - 2)
  }

  lemma BlockIsScanned(data: Bytes, start: nat, end: nat)
    requires Block(data, start, end)
    ensures ServerName(data) == Name(Scan(data, start, end))
  {
  }

  lemma NameHasBlock(data: Bytes) returns (start: nat, end: nat)
    requires ServerName(data).Name? && ServerName(data).name != []
    ensures Block(data, start, end)
  {
    var ciphers := 44 + data[43] as int;
    var comp := ciphers + 2 + U16(data, ciphers);
    start := comp + 1 + data[comp] + 2;
    end := start + U16(data, start - 2);
  }

  /** The walk over the extensions of a complete ClientHello record comes to one that holds the name. */
  ghost predicate FoundAt(data: Bytes, start: nat, end: nat, q: nat, name: Bytes) {
    Block(data, start, end) && Walks(data, start, end, q) && HoldsName(data, q, end, name)
  }

  /**
   On every input: a name is returned exactly when the walk over the extensions of a complete
   ClientHello record comes to a server_name extension that holds it.
   */
  lemma NameFoundIff(data: Bytes, name: Bytes)
    requires name != []
    ensures ServerName(data) == Name(name) <==>
      exists start: nat, end: nat, q: nat :: FoundAt(data, start, end, q, name)
  {
    if ServerName(data) == Name(name) {
      var start, end := NameHasBlock(data);
      BlockIsScanned(data, start, end);
      var q := ScanIsSound(data, start, end);
      assert FoundAt(data, start, end, q, name);
    } else {
      forall start: nat, end: nat, q: nat
        ensures !FoundAt(data, start, end, q, name)
      {
        if FoundAt(data, start, end, q, name) {
          BlockIsScanned(data, start, end);
          ScanIsComplete(data, start, end, q, name);
          assert false;
        }
      }
    }
  }

  /** What follows the list length, name type and name length in the body of the extension at `q`. */
  function NameBytes(data: Bytes, q: nat, end: nat): Bytes
    requires ServerNameAt(data, q, end) && U16(data, q + 2) >= 5
  {
    data[q + 9..ExtensionEnd(data, q)]
  }

  lemma RoomIff(data: Bytes, q: nat, end: nat, name: Bytes)
    requires HoldsName(data, q, end, name)
    ensures name <= NameBytes(data, q, end) <==> 5 + |name| <= U16(data, q + 2)
  {
    var inside := NameBytes(data, q, end);
    if |name| <= |inside| {
      assert inside[..|name|] == data[q + 9..q + 9 + |name|];
    }
  }

  lemma {:induction false} WalkEndsOnce(data: Bytes, pos: nat, end: nat, q: nat, q': nat, name: Bytes)
    requires Walks(data, pos, end, q) && HoldsName(data, q, end, name)
    requires Walks(data, pos, end, q') && HoldsName(data, q', end, name)
    ensures q == q'
    decreases |data| - pos
  {
    if SteppedOver(data, pos, end) {
      WalkEndsOnce(data, ExtensionEnd(data, pos), end, q, q', name);
    }
  }

  lemma BlockUnique(data: Bytes, start: nat, end: nat, start': nat, end': nat)
    requires Block(data, start, end) && Block(data, start', end')
    ensures start == start' && end == end'
  {
  }

  lemma FoundOnce(data: Bytes, start: nat, end: nat, q: nat, start': nat, end': nat, q': nat, name: Bytes)
    requires FoundAt(data, start, end, q, name) && FoundAt(data, start', end', q', name)
    ensures start == start' && end == end' && q == q'
  {
    BlockUnique(data, start, end, start', end');
    WalkEndsOnce(data, start, end, q, q', name);
  }

  /**
   The length of a name is compared with the data and not with the extension. On every input that
   gives a name, there is one extension that holds it, and the bytes returned are those of that
   extension exactly when its own length leaves room for them.
   */
  lemma NameIsInsideIff(data: Bytes, name: Bytes) returns (start: nat, end: nat, q: nat)
    requires name != [] && ServerName(data) == Name(name)
    ensures FoundAt(data, start, end, q, name)
    ensures forall s: nat, e: nat, p: nat :: FoundAt(data, s, e, p, name) ==> s == start && e == end && p == q
    ensures name <= NameBytes(data, q, end) <==> 5 + U16(data, q + 7) <= U16(data, q + 2)
  {
    NameFoundIff(data, name);
    start, end, q :| FoundAt(data, start, end, q, name);
    RoomIff(data, q, end, name);
    forall s: nat, e: nat, p: nat | FoundAt(data, s, e, p, name)
      ensures s == start && e == end && p == q
    {
      FoundOnce(data, start, end, q, s, e, p, name);
    }
  }

  /** A server_name extension that ends right after the length of its name. */
  function CutShort(listLen: nat, nameLen: nat): Extension
    requires listLen < 65536 && nameLen < 65536
  {
    Extension(0, Enc16(listLen) + [0] + Enc16(nameLen))
  }

  lemma ScanReadsOn(data: Bytes, q: nat, end: nat, listLen: nat, tail: Bytes)
    requires listLen < 65536 && |tail| < 65536 && q + 9 <= end
    requires Stands(data, q, PrintExtensions([CutShort(listLen, |tail|)]))
    requires |data| == q + 9 + |tail| && data[q + 9..] == tail
    ensures Scan(data, q, end) == tail
  {
    FirstExtension(data, q, [CutShort(listLen, |tail|)]);
    StandsSplit(data, q + 4, Enc16(listLen) + [0], Enc16(|tail|));
    Stands16(data, q + 7, |tail|);
    ScanIsComplete(data, q, end, q, tail);
  }

  lemma CutShortLength(listLen: nat, nameLen: nat)
    requires listLen < 65536 && nameLen < 65536
    ensures |PrintExtensions([CutShort(listLen, nameLen)])| == 9
  {
    var e := CutShort(listLen, nameLen);
    assert PrintExtensions([e]) == Enc16(e.kind) + Vec16(e.body) + PrintExtensions([]);
  }

  /** Where the last extension of a hello starts, if no other one is a server_name. */
  lemma LastExtension(h: Hello, data: Bytes) returns (q: nat, end: nat)
    requires h.Fits() && h.extensions != [] && h.Print() <= data
    requires forall i :: 0 <= i < |h.extensions| - 1 ==> h.extensions[i].kind != 0
    ensures var last := PrintExtensions([h.extensions[|h.extensions| - 1]]);
      Stands(data, q, last) && q + |last| == end == |h.Print()|
    ensures ServerName(data) == Name(Scan(data, q, end))
  {
    var k := |h.extensions| - 1;
    var pos := HelloReachesExtensions(h, data);
    PrintLength(h);
    end := pos + |PrintExtensions(h.extensions)|;
    q := ScanSkips(data, pos, end, h.extensions, k);
    assert h.extensions[k..] == [h.extensions[k]];
  }

  /**
   A hello whose last extension announces a name and ends before it: whatever comes after the whole
   record is returned as the name.
   */
  lemma NameCanOverrun(h: Hello, k: nat, listLen: nat, tail: Bytes)
    requires h.Fits() && listLen < 65536 && |tail| < 65536
    requires |h.extensions| == k + 1 && h.extensions[k] == CutShort(listLen, |tail|)
    requires forall i :: 0 <= i < k ==> h.extensions[i].kind != 0
    ensures ServerName(h.Print() + tail) == Name(tail)
  {
    var data := h.Print() + tail;
    var q, end := LastExtension(h, data);
    CutShortLength(listLen, |tail|);
    ScanReadsOn(data, q, end, listLen, tail);
  }

  // ----- Replaying the bytes that were peeked -----

  /** A connection as the bytes still to come. `chunk` is how much the network delivers at once. */
  class Conn {
    var stream: Bytes

    constructor (stream: Bytes)
      ensures this.stream == stream
    {
      this.stream := stream;
    }

    method Read(size: nat, chunk: nat) returns (out: Bytes)
      modifies this
      ensures out + stream == old(stream) && |out| == Min(Min(chunk, size), |old(stream)|)
    {
      var n := if chunk < size then chunk else size;
      if n > |stream| {
        n := |stream|;
      }
      out := stream[..n];
      stream := stream[n..];
    }
  }

  class BufConn {
    const conn: Conn
    /** What the reader over the peeked bytes has not handed out yet. */
    var peeked: Bytes

    ghost function Pending(): Bytes
      reads this, conn
    {
      peeked + conn.stream
    }

    constructor (conn: Conn, peeked: Bytes)
      ensures this.conn == conn && this.peeked == peeked
    {
      this.conn, this.peeked := conn, peeked;
    }

    method Read(size: nat, chunk: nat) returns (out: Bytes)
      modifies this, conn
      ensures out + Pending() == old(Pending())
      ensures |out| == if old(peeked) != [] then Min(size, |old(peeked)|) else Min(Min(chunk, size), |old(conn.stream)|)
    {
      if |peeked| > 0 {
        var n := if size < |peeked| then size else |peeked|;
        out := peeked[..n];
        peeked := peeked[n..];
        assert out + peeked == old(peeked);
      } else {
        out := conn.Read(size, chunk);
      }
    }
  }

  const PEEK := 4096

  /** What the one read of a peek gets. */
  function FirstRead(stream: Bytes, chunk: nat): Bytes {
    stream[..Min(Min(chunk, PEEK), |stream|)]
  }

  /**
   From the stream to the name: a stream that starts with a printed hello gives its first name
   exactly when the hello is no longer than 4096 bytes and the first read delivers all of it.
   Otherwise it gives none.
   */
  lemma PeekedName(h: Hello, k: nat, names: seq<Bytes>, stream: Bytes, chunk: nat)
    requires h.Fits() && k < |h.extensions| && IsServerNames(h.extensions[k], names)
    requires forall i :: 0 <= i < k ==> h.extensions[i].kind != 0
    requires h.Print() <= stream
    ensures ServerName(FirstRead(stream, chunk))
      == Name(if |h.Print()| <= 4096 && |h.Print()| <= chunk then names[0] else [])
  {
    var read := FirstRead(stream, chunk);
    if |h.Print()| <= 4096 && |h.Print()| <= chunk {
      assert h.Print() <= read;
      ExtractsFirstName(h, k, names, read);
    } else {
      assert read == h.Print()[..|read|];
      TruncatedHelloHasNoName(h, |read|);
    }
  }

  /**
   Peeking loses nothing: unless its one read fails or gets nothing but a bare header, the wrapped
   connection still has every byte of the original. A read that fails, other than at the end of the
   stream, gives no connection back, and neither does the panic on a bare header.
   */
  method PeekSNI(conn: Conn, chunk: nat, failed: bool) returns (name: Outcome, buffered: Option<BufConn>)
    modifies conn
    ensures buffered.None? <==> failed || BareHeader(FirstRead(old(conn.stream), chunk))
    ensures name == if failed then Name([]) else ServerName(FirstRead(old(conn.stream), chunk))
    ensures buffered.Some? ==>
      fresh(buffered.value) && buffered.value.conn == conn && buffered.value.Pending() == old(conn.stream)
    ensures conn.stream == old(conn.stream)[Min(Min(chunk, PEEK), |old(conn.stream)|)..]
  {
    var buf := conn.Read(PEEK, chunk);
    assert buf == FirstRead(old(conn.stream), chunk);
    if failed {
      return Name([]), None;
    }
    name := ExtractSNI(buf);
    if name.Panic? {
      return name, None;
    }
    var b := new BufConn(conn, buf);
    buffered := Some(b);
  }

  /**
   After a peek that gives a connection, however the bytes are read, they come out in the order they
   were sent, at least one with every read that asks for some while the network has some to deliver.
   */
  method ReadAfterPeek(conn: Conn, chunk: nat, sizes: seq<(nat, nat)>) returns (out: Bytes)
    modifies conn
    ensures out <= old(conn.stream)
    ensures BareHeader(FirstRead(old(conn.stream), chunk)) ==> out == []
    ensures !BareHeader(FirstRead(old(conn.stream), chunk)) &&
            (forall i :: 0 <= i < |sizes| ==> sizes[i].0 > 0 && sizes[i].1 > 0) ==>
      |out| >= Min(|sizes|, |old(conn.stream)|)
  {
    var _, r := PeekSNI(conn, chunk, false);
    if r.None? {
      return [];
    }
    out := ReadAll(r.value, sizes);
  }

  /** Reads in a row hand out the pending bytes in order. */
  method ReadAll(b: BufConn, sizes: seq<(nat, nat)>) returns (out: Bytes)
    modifies b, b.conn
    ensures out + b.Pending() == old(b.Pending())
    ensures (forall i :: 0 <= i < |sizes| ==> sizes[i].0 > 0 && sizes[i].1 > 0) ==>
      |out| >= Min(|sizes|, |old(b.Pending())|)
  {
    out := [];
    ghost var all := b.Pending();
    for i := 0 to |sizes|
      invariant out + b.Pending() == all
      invariant (forall j :: 0 <= j < i ==> sizes[j].0 > 0 && sizes[j].1 > 0) ==> |out| >= Min(i, |all|)
    {
      var more := b.Read(sizes[i].0, sizes[i].1);
      Assoc(out, more, b.Pending());
      out := out + more;
    }
  }
}
