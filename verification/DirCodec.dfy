/** The version-0 directory object: its byte format, its id and the check of an id. */
module DirCodec {
  import opened Options

  type Byte = x: int | 0 <= x < 256
  type Word = x: int | 0 <= x < 0x1_0000_0000
  type ObjId = s: seq<Byte> | |s| == 40 witness seq(40, _ => 0)

  /** What version 0 stores of a directory entry; the name is its bytes. */
  datatype Entry = Entry(mode: Word, id: ObjId, name: seq<Byte>)

  const TYPE_DIR := 3
  const BASE_SIZE := 48
  const MAX_NAME := 255

  // ---------------------------------------------------------------- integers

  /** Network byte order. */
  function Big(v: Word): (s: seq<Byte>)
    ensures |s| == 4
  {
    [v / 0x100_0000, v / 0x1_0000 % 0x100, v / 0x100 % 0x100, v % 0x100]
  }

  function Little(v: Word): (s: seq<Byte>)
    ensures |s| == 4
  {
    [v % 0x100, v / 0x100 % 0x100, v / 0x1_0000 % 0x100, v / 0x100_0000]
  }

  /** get32bit */
  function Value(s: seq<Byte>): Word
    requires |s| == 4
  {
    s[0] as int * 0x100_0000 + s[1] as int * 0x1_0000 + s[2] as int * 0x100 + s[3] as int
  }

  /** Modes and lengths are stored most significant byte first. */
  lemma BigValue(v: Word)
    ensures Value(Big(v)) == v
    ensures var s := Big(v); s[0] as int * 0x100_0000 + s[1] as int * 0x1_0000 + s[2] as int * 0x100 + s[3] as int == v
  {
    assert v / 0x100 == v / 0x1_0000 * 0x100 + v / 0x100 % 0x100;
    assert v / 0x1_0000 == v / 0x100_0000 * 0x100 + v / 0x1_0000 % 0x100;
  }

  /** Modes are digested least significant byte first. */
  lemma LittleValue(v: Word)
    ensures var s := Little(v);
            s[0] as int + s[1] as int * 0x100 + s[2] as int * 0x1_0000 + s[3] as int * 0x100_0000 == v
  {
    assert v / 0x100 == v / 0x1_0000 * 0x100 + v / 0x100 % 0x100;
    assert v / 0x1_0000 == v / 0x100_0000 * 0x100 + v / 0x1_0000 % 0x100;
  }

  // ------------------------------------------------------------------- format

  function NameLength(e: Entry): Word
  {
    |e.name| % 0x1_0000_0000
  }

  function EntryBytes(e: Entry): seq<Byte>
  {
    Big(e.mode) + e.id + Big(NameLength(e)) + e.name
  }

  function EntriesBytes(es: seq<Entry>): seq<Byte>
  {
    if es == [] then [] else EntryBytes(es[0]) + EntriesBytes(es[1..])
  }

  function Encoded(es: seq<Entry>): seq<Byte>
  {
    Big(TYPE_DIR) + EntriesBytes(es)
  }

  function Prepend(done: seq<Entry>, rest: Option<seq<Entry>>): Option<seq<Entry>>
  {
    if rest.None? then None else Some(done + rest.value)
  }

  /** Reading stops when no more than a bare entry header is left, and a longer name is cut. */
  function DecodeEntries(s: seq<Byte>): Option<seq<Entry>>
    decreases |s|
  {
    if |s| <= BASE_SIZE then Some([])
    else
      var length := Value(s[44..48]);
      if |s| - BASE_SIZE < length then None
      else
        var end := BASE_SIZE + if length < MAX_NAME then length else MAX_NAME;
        Prepend([Entry(Value(s[0..4]), s[4..44], s[BASE_SIZE..end])], DecodeEntries(s[end..]))
  }

  function Decoded(data: seq<Byte>): Option<seq<Entry>>
    requires |data| >= 4
  {
    if Value(data[0..4]) != TYPE_DIR then None else DecodeEntries(data[4..])
  }

  // --------------------------------------------------------------- round trip

  ghost predicate ShortNames(es: seq<Entry>)
  {
    forall i :: 0 <= i < |es| ==> |es[i].name| <= 255
  }

  /** No name is too long, and the last one is not empty. */
  ghost predicate Fits(es: seq<Entry>)
  {
    ShortNames(es) && (es != [] ==> es[|es| - 1].name != [])
  }

  lemma {:induction false} DecodedNames(s: seq<Byte>)
    ensures DecodeEntries(s).Some? ==> ShortNames(DecodeEntries(s).value)
    decreases |s|
  {
    if |s| > BASE_SIZE && |s| - BASE_SIZE >= Value(s[44..48]) {
      var length := Value(s[44..48]);
      DecodedNames(s[BASE_SIZE + (if length < MAX_NAME then length else MAX_NAME)..]);
    }
  }

  /** One encoded entry followed by anything is read back, unless it is a bare header at the end. */
  lemma DecodeOne(e: Entry, rest: seq<Byte>)
    requires |e.name| <= MAX_NAME && (e.name != [] || rest != [])
    ensures var s := EntryBytes(e) + rest;
            && |s| > BASE_SIZE && Value(s[44..48]) == |e.name| <= |s| - BASE_SIZE
            && Value(s[0..4]) == e.mode && s[4..44] == e.id
            && s[BASE_SIZE..BASE_SIZE + |e.name|] == e.name && s[BASE_SIZE + |e.name|..] == rest
  {
    var s := EntryBytes(e) + rest;
    assert s[0..4] == Big(e.mode) && s[44..48] == Big(NameLength(e));
    BigValue(e.mode);
    BigValue(NameLength(e));
  }

  lemma DecodeCons(e: Entry, rest: seq<Byte>)
    requires |e.name| <= MAX_NAME && (e.name != [] || rest != [])
    ensures DecodeEntries(EntryBytes(e) + rest) == Prepend([e], DecodeEntries(rest))
  {
    DecodeOne(e, rest);
  }

  lemma EncodedNotEmpty(es: seq<Entry>)
    requires es != []
    ensures |EntriesBytes(es)| >= BASE_SIZE
  {
  }

  /** What comes back of short names: a last empty one is dropped. */
  ghost function Kept(es: seq<Entry>): seq<Entry>
  {
    if es != [] && es[|es| - 1].name == [] then es[..|es| - 1] else es
  }

  lemma KeptCons(es: seq<Entry>)
    requires |es| > 1
    ensures Kept(es) == [es[0]] + Kept(es[1..])
  {
  }

  lemma {:induction false} DecodeEncoded(es: seq<Entry>)
    requires ShortNames(es)
    ensures DecodeEntries(EntriesBytes(es)) == Some(Kept(es))
  {
    if |es| == 1 {
      var e := es[0];
      assert EntriesBytes(es) == EntryBytes(e) + [];
      assert es == [e] && [e] + [] == [e];
      if e.name != [] {
        DecodeCons(e, []);
      } else {
        assert Kept(es) == [];
      }
    } else if es != [] {
      EncodedNotEmpty(es[1..]);
      DecodeCons(es[0], EntriesBytes(es[1..]));
      DecodeEncoded(es[1..]);
      KeptCons(es);
    }
  }

  lemma EncodedParts(es: seq<Entry>)
    ensures |Encoded(es)| >= 4 && Decoded(Encoded(es)) == DecodeEntries(EntriesBytes(es))
  {
  }

  /** A listing survives encoding and decoding exactly when no name is longer than 255
      bytes and the last name is not empty. */
  lemma RoundTrip(es: seq<Entry>)
    ensures |Encoded(es)| >= 4
    ensures Decoded(Encoded(es)) == Some(es) <==> Fits(es)
  {
    EncodedParts(es);
    DecodedNames(EntriesBytes(es));
    if ShortNames(es) {
      DecodeEncoded(es);
    }
  }

  // ----------------------------------------------------------------------- id

  type Digest = seq<Byte> -> ObjId

  function EntryInput(e: Entry): seq<Byte>
  {
    e.id + e.name + Little(e.mode)
  }

  function IdInput(es: seq<Entry>): seq<Byte>
  {
    if es == [] then [] else EntryInput(es[0]) + IdInput(es[1..])
  }

  const ZERO_ID: ObjId := seq(40, _ => 48)

  lemma {:induction false} IdInputAppend(es: seq<Entry>, e: Entry)
    ensures IdInput(es + [e]) == IdInput(es) + EntryInput(e)
  {
    if es == [] {
      assert es + [e] == [e];
      assert [e][1..] == [];
    } else {
      assert (es + [e])[1..] == es[1..] + [e];
      IdInputAppend(es[1..], e);
    }
  }

  /** compute_dir_id_v0 */
  method ComputeId(es: seq<Entry>, digest: Digest) returns (id: ObjId)
    ensures id == if es == [] then ZERO_ID else digest(IdInput(es))
  {
    if es == [] {
      return ZERO_ID;
    }
    var input: seq<Byte> := [];
    for i := 0 to |es|
      invariant input == IdInput(es[..i])
    {
      IdInputAppend(es[..i], es[i]);
      assert es[..i + 1] == es[..i] + [es[i]];
      input := input + es[i].id;
      input := input + es[i].name;
      input := input + Little(es[i].mode);
    }
    assert es[..|es|] == es;
    id := digest(input);
  }

  /** Ids in hex, names as C strings, and a file type and permissions as mode. */
  ghost predicate Plain(e: Entry)
  {
    0 !in e.id && 0 !in e.name && e.mode < 0x1_0000
  }

  ghost predicate AllPlain(es: seq<Entry>)
  {
    forall i :: 0 <= i < |es| ==> Plain(es[i])
  }

  /** What may follow an entry: nothing, or an id. */
  ghost predicate Follows(x: seq<Byte>)
  {
    x != [] ==> x[0] != 0
  }

  lemma SmallMode(v: Word)
    requires v < 0x1_0000
    ensures Little(v) == [v % 0x100, v / 0x100, 0, 0]
  {
  }

  /** The name ends where the high half of the mode says so. */
  lemma NotLonger(e: Entry, f: Entry, x: seq<Byte>, y: seq<Byte>)
    requires Plain(e) && Plain(f) && Follows(x) && EntryInput(e) + x == EntryInput(f) + y
    ensures |f.name| <= |e.name|
  {
    var s, t := EntryInput(e) + x, EntryInput(f) + y;
    var k, l := |e.name|, |f.name|;
    SmallMode(e.mode);
    SmallMode(f.mode);
    assert s[40 + k + 2] == 0 && t[40 + l + 2] == 0 && t[40 + l + 3] == 0;
  }

  lemma SameMode(e: Entry, f: Entry)
    requires Plain(e) && Plain(f) && Little(e.mode) == Little(f.mode)
    ensures e.mode == f.mode
  {
    SmallMode(e.mode);
    SmallMode(f.mode);
    assert Little(e.mode)[0] == Little(f.mode)[0] && Little(e.mode)[1] == Little(f.mode)[1];
  }

  lemma FirstEntrySame(e: Entry, f: Entry, x: seq<Byte>, y: seq<Byte>)
    requires Plain(e) && Plain(f) && Follows(x) && Follows(y) && EntryInput(e) + x == EntryInput(f) + y
    ensures e == f && x == y
  {
    NotLonger(e, f, x, y);
    NotLonger(f, e, y, x);
    var s, t, k := EntryInput(e) + x, EntryInput(f) + y, |e.name|;
    assert e.id == s[..40] == t[..40] == f.id;
    assert e.name == s[40..40 + k] == t[40..40 + k] == f.name;
    assert Little(e.mode) == s[40 + k..44 + k] == t[40 + k..44 + k] == Little(f.mode);
    SameMode(e, f);
    assert x == s[44 + k..] == t[44 + k..] == y;
  }

  lemma InputFollows(es: seq<Entry>)
    requires AllPlain(es)
    ensures Follows(IdInput(es))
  {
    if es != [] { assert IdInput(es)[0] == es[0].id[0] && es[0].id[0] in es[0].id; }
  }

  /** The bytes that are digested tell plain listings apart, so under a collision-free
      digest an id determines its listing. */
  lemma {:induction false} IdInputInjective(es: seq<Entry>, fs: seq<Entry>)
    requires AllPlain(es) && AllPlain(fs) && IdInput(es) == IdInput(fs)
    ensures es == fs
  {
    if es != [] && fs != [] {
      InputFollows(es[1..]);
      InputFollows(fs[1..]);
      FirstEntrySame(es[0], fs[0], IdInput(es[1..]), IdInput(fs[1..]));
      IdInputInjective(es[1..], fs[1..]);
      assert es == [es[0]] + es[1..] && fs == [fs[0]] + fs[1..];
    }
  }

  // --------------------------------------------------------------- the methods

  /** Copy `bytes` into the buffer at `p`. */
  method PutBytes(buffer: array<Byte>, p: nat, bytes: seq<Byte>)
    requires p + |bytes| <= buffer.Length
    modifies buffer
    ensures buffer[..p + |bytes|] == old(buffer[..p]) + bytes
  {
    for i := 0 to |bytes|
      invariant buffer[..p] == old(buffer[..p]) && buffer[p..p + i] == bytes[..i]
    {
      buffer[p + i] := bytes[i];
    }
    assert buffer[..p + |bytes|] == buffer[..p] + buffer[p..p + |bytes|];
  }

  lemma {:induction false} EntriesBytesAppend(es: seq<Entry>, e: Entry)
    ensures EntriesBytes(es + [e]) == EntriesBytes(es) + EntryBytes(e)
  {
    if es == [] {
      assert es + [e] == [e];
      assert [e][1..] == [];
    } else {
      assert (es + [e])[1..] == es[1..] + [e];
      EntriesBytesAppend(es[1..], e);
    }
  }

  /** The first pass: the size of the object. */
  method OndiskSize(es: seq<Entry>) returns (size: nat)
    ensures size == |Encoded(es)|
  {
    size := 4;
    for i := 0 to |es|
      invariant size == 4 + |EntriesBytes(es[..i])|
    {
      PrefixGrows(es, i);
      size := size + BASE_SIZE + |es[i].name|;
    }
    assert es[..|es|] == es;
  }

  lemma {:induction false} SizeMonotone(es: seq<Entry>, i: nat)
    requires i <= |es|
    ensures |EntriesBytes(es[..i])| <= |EntriesBytes(es)|
    decreases |es|
  {
    if i > 0 {
      SizeMonotone(es[1..], i - 1);
      assert es[..i][1..] == es[1..][..i - 1];
    }
  }

  lemma PrefixGrows(es: seq<Entry>, i: nat)
    requires i < |es|
    ensures EntriesBytes(es[..i + 1]) == EntriesBytes(es[..i]) + EntryBytes(es[i])
    ensures |EntriesBytes(es[..i])| + |EntryBytes(es[i])| <= |EntriesBytes(es)|
  {
    EntriesBytesAppend(es[..i], es[i]);
    assert es[..i + 1] == es[..i] + [es[i]];
    SizeMonotone(es, i + 1);
  }

  /** Lay down one entry field by field. */
  method PutEntry(buffer: array<Byte>, p: nat, e: Entry)
    requires p + |EntryBytes(e)| <= buffer.Length
    modifies buffer
    ensures buffer[..p + |EntryBytes(e)|] == old(buffer[..p]) + EntryBytes(e)
  {
    PutBytes(buffer, p, Big(e.mode));
    PutBytes(buffer, p + 4, e.id);
    PutBytes(buffer, p + 44, Big(NameLength(e)));
    PutBytes(buffer, p + 48, e.name);
  }

  lemma Regroup(a: seq<Byte>, b: seq<Byte>, c: seq<Byte>)
    ensures (a + b) + c == a + (b + c)
  {
  }

  /** The second pass: the entries, one after another behind the type. */
  method PutEntries(buffer: array<Byte>, es: seq<Entry>)
    requires buffer.Length == 4 + |EntriesBytes(es)|
    modifies buffer
    ensures buffer[..] == old(buffer[..4]) + EntriesBytes(es)
  {
    var p := 4;
    for i := 0 to |es|
      invariant p == 4 + |EntriesBytes(es[..i])| <= buffer.Length
      invariant buffer[..p] == old(buffer[..4]) + EntriesBytes(es[..i])
    {
      PrefixGrows(es, i);
      PutEntry(buffer, p, es[i]);
      p := p + |EntryBytes(es[i])|;
      Regroup(old(buffer[..4]), EntriesBytes(es[..i]), EntryBytes(es[i]));
    }
    assert es[..|es|] == es;
    assert buffer[..p] == buffer[..];
  }

  lemma TypeWord(es: seq<Entry>)
    ensures |Encoded(es)| >= 4 && Encoded(es)[..4] == [0, 0, 0, 3]
  {
    assert Encoded(es)[..4] == Big(TYPE_DIR);
  }

  /** seaf_dir_to_v0_data */
  method ToData(es: seq<Entry>) returns (buffer: array<Byte>)
    ensures buffer[..] == Encoded(es) && buffer.Length >= 4 && buffer[..4] == [0, 0, 0, 3]
  {
    var size := OndiskSize(es);
    buffer := new Byte[size];
    PutBytes(buffer, 0, Big(TYPE_DIR));
    PutEntries(buffer, es);
    TypeWord(es);
    assert buffer[..4] == buffer[..][..4];
  }

  function CutLength(length: Word): nat
  {
    if length < MAX_NAME then length else MAX_NAME
  }

  /** One turn of the reading loop, at position `p`. */
  lemma DecodeStep(data: seq<Byte>, p: nat)
    requires p <= |data| && |data| - p > BASE_SIZE
    ensures var length := Value(data[p + 44..p + 48]);
            DecodeEntries(data[p..]) ==
            if |data| - p - BASE_SIZE < length then None
            else Prepend([Entry(Value(data[p..p + 4]), data[p + 4..p + 44],
                                data[p + BASE_SIZE..p + BASE_SIZE + CutLength(length)])],
                         DecodeEntries(data[p + BASE_SIZE + CutLength(length)..]))
  {
    var s := data[p..];
    assert s[0..4] == data[p..p + 4] && s[4..44] == data[p + 4..p + 44] && s[44..48] == data[p + 44..p + 48];
    var length := Value(s[44..48]);
    if |s| - BASE_SIZE >= length {
      var end := BASE_SIZE + CutLength(length);
      assert s[BASE_SIZE..end] == data[p + BASE_SIZE..p + end] && s[end..] == data[p + end..];
    }
  }

  lemma PrependTwice(done: seq<Entry>, e: Entry, rest: Option<seq<Entry>>)
    ensures Prepend(done, Prepend([e], rest)) == Prepend(done + [e], rest)
  {
    if rest.Some? { assert done + ([e] + rest.value) == done + [e] + rest.value; }
  }

  lemma PrependNothing(rest: Option<seq<Entry>>)
    ensures Prepend([], rest) == rest
  {
    if rest.Some? { assert [] + rest.value == rest.value; }
  }

  /** Read the entry at `p`, or fail when its name does not fit the data. */
  method ReadEntry(data: seq<Byte>, p: nat) returns (e: Option<Entry>, next: nat)
    requires p <= |data| && |data| - p > BASE_SIZE
    ensures e.None? ==> DecodeEntries(data[p..]).None?
    ensures e.Some? ==>
              p < next <= |data| && DecodeEntries(data[p..]) == Prepend([e.value], DecodeEntries(data[next..]))
  {
    DecodeStep(data, p);
    var mode, id := Value(data[p..p + 4]), data[p + 4..p + 44];
    var length := Value(data[p + 44..p + 48]);
    if |data| - p - BASE_SIZE < length {
      return None, p;
    }
    next := p + BASE_SIZE + if length < MAX_NAME then length else MAX_NAME;
    e := Some(Entry(mode, id, data[p + BASE_SIZE..next]));
  }

  /** seaf_dir_from_v0_data; `typeWord` is the word read first, which is in the data unless
      that is too short. */
  method FromData(data: seq<Byte>, typeWord: Word) returns (entries: Option<seq<Entry>>)
    requires |data| >= 4 ==> typeWord == Value(data[0..4])
    ensures |data| >= 4 ==> entries == Decoded(data)
    ensures |data| < 4 ==> entries == if typeWord == TYPE_DIR then Some([]) else None
  {
    if typeWord != TYPE_DIR {
      return None;
    }
    var p := 4;
    var done: seq<Entry> := [];
    if |data| >= 4 { PrependNothing(DecodeEntries(data[4..])); }
    while |data| - p > BASE_SIZE
      invariant |data| < 4 ==> p == 4 && done == []
      invariant |data| >= 4 ==> 4 <= p <= |data| && Decoded(data) == Prepend(done, DecodeEntries(data[p..]))
    {
      var e, next := ReadEntry(data, p);
      if e.None? {
        return None;
      }
      PrependTwice(done, e.value, DecodeEntries(data[next..]));
      done := done + [e.value];
      p := next;
    }
    assert done + [] == done;
    entries := Some(done);
  }

  /** verify_seafdir_v0: data is accepted under an id exactly when it decodes to entries
      whose digest is that id. */
  method Verify(id: ObjId, data: seq<Byte>, verifyId: bool, digest: Digest) returns (ok: bool)
    ensures ok <==> |data| >= 4 && Decoded(data).Some? && (verifyId ==> digest(IdInput(Decoded(data).value)) == id)
  {
    if |data| < 4 || Value(data[0..4]) != TYPE_DIR {
      return false;
    }
    var p := 4;
    var input: seq<Byte> := [];
    ghost var done: seq<Entry> := [];
    PrependNothing(DecodeEntries(data[4..]));
    while |data| - p > BASE_SIZE
      invariant 4 <= p <= |data|
      invariant Decoded(data) == Prepend(done, DecodeEntries(data[p..]))
      invariant verifyId ==> input == IdInput(done)
    {
      var e, next := ReadEntry(data, p);
      if e.None? {
        return false;
      }
      PrependTwice(done, e.value, DecodeEntries(data[next..]));
      IdInputAppend(done, e.value);
      done := done + [e.value];
      if verifyId {
        input := input + EntryInput(e.value);
      }
      p := next;
    }
    assert done + [] == done;
    ok := !verifyId || digest(input) == id;
  }

  /** Every encoded directory that fits passes the check under the id computed from its
      entries, and under no other id. */
  method EncodeAndVerify(es: seq<Entry>, id: ObjId, digest: Digest) returns (ok: bool)
    requires Fits(es) && es != []
    ensures ok <==> id == digest(IdInput(es))
  {
    var data := ToData(es);
    RoundTrip(es);
    ok := Verify(id, data[..], true, digest);
  }
}
