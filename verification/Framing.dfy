/**
 * Records and header fields.  A header is a list of frames, each a 32-bit length and that many bytes "name=value".
 * Two readers exist: the map-based readFields of the bag, and the first-letter readHeader of the iterator.
 */
module Framing {
  import opened Wrappers
  import opened Bytes
  import opened RosTimes

  const EQUALS: byte := 61

  function Ascii(s: string): seq<byte> {
    seq(|s|, i requires 0 <= i < |s| => s[i] as int % 256)
  }

  function Chars(b: seq<byte>): string {
    seq(|b|, i requires 0 <= i < |b| => b[i] as char)
  }

  predicate SingleBytes(s: string) {
    forall i :: 0 <= i < |s| ==> s[i] as int < 256
  }

  lemma CharsOfAscii(s: string)
    requires SingleBytes(s)
    ensures Chars(Ascii(s)) == s
  {
  }

  /** The position of the first x, or the length when there is none. */
  function IndexOf(b: seq<byte>, x: byte): (n: nat)
    ensures n <= |b|
    ensures n < |b| ==> b[n] == x
    ensures forall i :: 0 <= i < n ==> b[i] != x
  {
    if b == [] || b[0] == x then 0 else
      var n := IndexOf(b[1..], x);
      assert forall i :: 1 <= i <= n ==> b[i] == b[1..][i - 1];
      1 + n
  }

  // ---------- Frames ----------

  function Frame(content: seq<byte>): seq<byte> {
    U32(|content| % TWO_TO_32) + content
  }

  function Frames(contents: seq<seq<byte>>): seq<byte> {
    if contents == [] then [] else Frame(contents[0]) + Frames(contents[1..])
  }

  predicate Short(contents: seq<seq<byte>>) {
    forall i :: 0 <= i < |contents| ==> |contents[i]| < TWO_TO_32
  }

  predicate HasSeparator(content: seq<byte>) {
    IndexOf(content, EQUALS) < |content|
  }

  type FieldMap = map<string, seq<byte>>

  /** The map of a list of frames: the last value of each name. */
  function FieldsOf(contents: seq<seq<byte>>): FieldMap {
    if contents == [] then map[] else
      var last := contents[|contents| - 1];
      var sep := IndexOf(last, EQUALS);
      var before := FieldsOf(contents[..|contents| - 1]);
      if sep < |last| then before[Chars(last[..sep]) := last[sep + 1..]] else before
  }

  lemma FramesStep(mem: seq<byte>, p: nat, contents: seq<seq<byte>>, i: nat)
    requires i < |contents| && Short(contents)
    requires Holds(mem, p, Frames(contents[i..]))
    ensures p + 4 <= |mem| && ReadU32(mem, p) == |contents[i]|
    ensures Holds(mem, p + 4, contents[i])
    ensures Holds(mem, p + 4 + |contents[i]|, Frames(contents[i + 1..]))
    ensures |Frames(contents[i..])| == 4 + |contents[i]| + |Frames(contents[i + 1..])|
  {
    hide U32, ReadU32;
    var rest := contents[i..];
    assert rest[0] == contents[i] && rest[1..] == contents[i + 1..];
    HoldsConcat(mem, p, Frame(rest[0]), Frames(rest[1..]));
    HoldsConcat(mem, p, U32(|contents[i]|), contents[i]);
    U32RoundTrip(mem, p, |contents[i]|);
  }

  /** A reader at frame i of a header that ends at end. */
  predicate AtFrame(mem: seq<byte>, q: nat, contents: seq<seq<byte>>, i: nat, end: nat) {
    i <= |contents| && Holds(mem, q, Frames(contents[i..])) && q + |Frames(contents[i..])| == end
  }

  lemma AtFrameStep(mem: seq<byte>, q: nat, contents: seq<seq<byte>>, i: nat, end: nat)
    requires Short(contents) && AtFrame(mem, q, contents, i, end)
    ensures q < end <==> i < |contents|
    ensures i < |contents| ==>
      && q + 4 <= |mem| && ReadU32(mem, q) == |contents[i]|
      && Holds(mem, q + 4, contents[i]) && q + 4 + |contents[i]| <= end
      && AtFrame(mem, q + 4 + |contents[i]|, contents, i + 1, end)
  {
    if i < |contents| {
      FramesStep(mem, q, contents, i);
    }
  }

  lemma AtFrameStart(mem: seq<byte>, p: nat, contents: seq<seq<byte>>)
    requires Holds(mem, p, Frames(contents))
    ensures AtFrame(mem, p, contents, 0, p + |Frames(contents)|)
  {
    assert contents[0..] == contents;
  }

  datatype HeaderError = NoSeparator

  /** Bag::readFields over len bytes at p. */
  method ReadFields(mem: seq<byte>, p: nat, len: nat, ghost contents: seq<seq<byte>>)
    returns (r: Result<FieldMap, HeaderError>)
    requires Short(contents) && Holds(mem, p, Frames(contents)) && len == |Frames(contents)|
    ensures r.Ok? <==> forall i :: 0 <= i < |contents| ==> HasSeparator(contents[i])
    ensures r.Ok? ==> r.value == FieldsOf(contents)
  {
    hide AtFrame, Frames, ReadU32;
    var fields: FieldMap := map[];
    var q: nat, end := p, p + len;
    ghost var i: nat := 0;
    AtFrameStart(mem, p, contents);
    while q < end
      invariant i <= |contents| && AtFrame(mem, q, contents, i, end)
      invariant fields == FieldsOf(contents[..i])
      invariant forall j :: 0 <= j < i ==> HasSeparator(contents[j])
      decreases |contents| - i
    {
      AtFrameStep(mem, q, contents, i, end);
      var fieldLen := ReadU32(mem, q);
      q := q + 4;
      var buffer := mem[q..q + fieldLen];
      assert buffer == contents[i];
      var sep := IndexOf(buffer, EQUALS);
      if sep == |buffer| {
        return Err(NoSeparator);
      }
      fields := fields[Chars(buffer[..sep]) := buffer[sep + 1..]];
      assert contents[..i + 1][..i] == contents[..i];
      q := q + fieldLen;
      i := i + 1;
    }
    AtFrameStep(mem, q, contents, i, end);
    assert contents[..i] == contents;
    r := Ok(fields);
  }

  // ---------- Fields ----------

  datatype Field = Field(name: string, value: seq<byte>)

  function Content(f: Field): seq<byte> {
    Ascii(f.name) + [EQUALS] + f.value
  }

  function Contents(fs: seq<Field>): seq<seq<byte>> {
    seq(|fs|, i requires 0 <= i < |fs| => Content(fs[i]))
  }

  /** A name that can be written into a header: single bytes, no separator, no terminator. */
  predicate GoodField(f: Field) {
    SingleBytes(f.name) && '=' !in f.name && '\0' !in f.name && |Content(f)| < TWO_TO_32
  }

  predicate GoodFields(fs: seq<Field>) {
    forall i :: 0 <= i < |fs| ==> GoodField(fs[i])
  }

  function Encode(fs: seq<Field>): seq<byte> {
    Frames(Contents(fs))
  }

  /** The last value of each name. */
  function LastWins(fs: seq<Field>): FieldMap {
    if fs == [] then map[] else LastWins(fs[..|fs| - 1])[fs[|fs| - 1].name := fs[|fs| - 1].value]
  }

  /** A name is present iff some field has it, with the value of the last such field. */
  lemma {:induction false} LastWinsMeaning(fs: seq<Field>, name: string)
    ensures name in LastWins(fs) <==> exists i :: 0 <= i < |fs| && fs[i].name == name
    ensures forall i :: 0 <= i < |fs| && fs[i].name == name && (forall j :: i < j < |fs| ==> fs[j].name != name) ==>
      name in LastWins(fs) && LastWins(fs)[name] == fs[i].value
  {
    if fs != [] {
      var n := |fs| - 1;
      LastWinsMeaning(fs[..n], name);
      assert forall i :: 0 <= i < n ==> fs[i] == fs[..n][i];
      if name in LastWins(fs) && fs[n].name != name {
        var i :| 0 <= i < |fs[..n]| && fs[..n][i].name == name;
        assert fs[i].name == name;
      }
    }
  }

  lemma CleanName(f: Field)
    requires GoodField(f)
    ensures forall i :: 0 <= i < |f.name| ==>
      Content(f)[i] == f.name[i] as int && Content(f)[i] != EQUALS && Content(f)[i] != 0
  {
    forall i | 0 <= i < |f.name|
      ensures Content(f)[i] == f.name[i] as int && Content(f)[i] != EQUALS && Content(f)[i] != 0
    {
      var c := f.name[i];
      assert c in f.name;
      assert c as int == '=' as int ==> c == '=';
      assert c as int == '\0' as int ==> c == '\0';
    }
  }

  lemma SeparatorOf(f: Field)
    requires GoodField(f)
    ensures IndexOf(Content(f), EQUALS) == |f.name| && HasSeparator(Content(f))
    ensures Content(f)[..|f.name|] == Ascii(f.name) && Content(f)[|f.name| + 1..] == f.value
  {
    var b := Content(f);
    assert b[|f.name|] == EQUALS;
    CleanName(f);
  }

  /** The map of encoded fields has, for each name, the last value: the framing round trip. */
  lemma {:induction false} FieldsRoundTrip(fs: seq<Field>)
    requires GoodFields(fs)
    ensures FieldsOf(Contents(fs)) == LastWins(fs)
    ensures Short(Contents(fs)) && forall i :: 0 <= i < |fs| ==> HasSeparator(Contents(fs)[i])
  {
    forall i | 0 <= i < |fs|
      ensures HasSeparator(Contents(fs)[i])
    {
      SeparatorOf(fs[i]);
    }
    if fs != [] {
      var n := |fs| - 1;
      FieldsRoundTrip(fs[..n]);
      assert Contents(fs)[..n] == Contents(fs[..n]);
      SeparatorOf(fs[n]);
      CharsOfAscii(fs[n].name);
    }
  }

  // ---------- The fast header ----------

  const MESSAGE_DATA: byte := 2
  const CONNECTION: byte := 7
  const UNSET: byte := 255

  datatype Header = Header(op: byte, connectionId: nat, timestamp: Time)

  const NO_HEADER := Header(UNSET, 0, Time(0, 0))

  /** strstr(p, "="): the first '=' at or after p, unless a terminator or the end of memory comes first. */
  function StrStr(mem: seq<byte>, p: nat): Option<nat>
    decreases |mem| - p
  {
    if p >= |mem| || mem[p] == 0 then None
    else if mem[p] == EQUALS then Some(p)
    else StrStr(mem, p + 1)
  }

  /** How many bytes of the value the fast reader looks at, by the first letter of the frame. */
  function Need(letter: byte): nat {
    if letter == 'o' as int then 1 else if letter == 'c' as int then 4 else if letter == 't' as int then 8 else 0
  }

  /** One step of the fast reader on the frame content at p. */
  function Glance(mem: seq<byte>, p: nat, value: nat, h: Header): Header
    requires p < |mem| && value + Need(mem[p]) <= |mem|
  {
    if mem[p] == 'o' as int then h.(op := mem[value])
    else if mem[p] == 'c' as int then h.(connectionId := ReadU32(mem, value))
    else if mem[p] == 't' as int then h.(timestamp := ReadTime(mem, value))
    else h
  }

  /** A field as the fast reader sees it when its value is long enough. */
  function GlanceField(f: Field, h: Header): Header {
    if f.name == "" then h
    else if f.name[0] == 'o' && |f.value| >= 1 then h.(op := f.value[0])
    else if f.name[0] == 'c' && |f.value| >= 4 then h.(connectionId := ReadU32(f.value, 0))
    else if f.name[0] == 't' && |f.value| >= 8 then h.(timestamp := ReadTime(f.value, 0))
    else h
  }

  function GlanceAll(fs: seq<Field>): Header {
    if fs == [] then NO_HEADER else GlanceField(fs[|fs| - 1], GlanceAll(fs[..|fs| - 1]))
  }

  /** The value of f is long enough for its first letter. */
  predicate Sized(f: Field) {
    f.name != "" ==> |f.value| >= Need(f.name[0] as int % 256)
  }

  /** What must be readable for the fast reader: an operation code has a byte, and room bytes that follow the header
      make up for any other value that is too short. */
  predicate Legible(f: Field, room: nat) {
    f.name != "" ==> |f.value| + room >= Need(f.name[0] as int % 256) && (f.name[0] == 'o' ==> |f.value| >= 1)
  }

  lemma {:induction false} StrStrFinds(mem: seq<byte>, p: nat, f: Field, i: nat)
    requires GoodField(f) && Holds(mem, p, Content(f)) && i <= |f.name|
    ensures StrStr(mem, p + i) == Some(p + |f.name|)
    decreases |f.name| - i
  {
    HoldsAt(mem, p, Content(f), i);
    if i < |f.name| {
      CleanName(f);
      StrStrFinds(mem, p, f, i + 1);
    }
  }

  lemma SameU32(mem: seq<byte>, v: nat, b: seq<byte>, i: nat)
    requires Holds(mem, v, b) && i + 4 <= |b|
    ensures v + i + 4 <= |mem| && ReadU32(mem, v + i) == ReadU32(b, i)
  {
    forall j | 0 <= j < |b|
      ensures mem[v + j] == b[j]
    {
      HoldsAt(mem, v, b, j);
    }
    assert mem[v + (i + 1)] == b[i + 1] && mem[v + (i + 2)] == b[i + 2] && mem[v + (i + 3)] == b[i + 3];
  }

  lemma SameTime(mem: seq<byte>, v: nat, b: seq<byte>)
    requires Holds(mem, v, b) && 8 <= |b|
    ensures v + 8 <= |mem| && ReadTime(mem, v) == ReadTime(b, 0)
  {
    SameU32(mem, v, b, 0);
    SameU32(mem, v, b, 4);
  }

  /** Where the parts of a field lie. */
  lemma GlancePlace(mem: seq<byte>, p: nat, f: Field)
    requires GoodField(f) && Holds(mem, p, Content(f))
    ensures p < |mem| && mem[p] == if f.name == "" then EQUALS else f.name[0] as int
    ensures Holds(mem, p + |f.name| + 1, f.value)
    ensures p + |f.name| + 1 + |f.value| == p + |Content(f)|
    ensures f.name != "" && f.name[0] as int == 'o' as int ==> f.name[0] == 'o'
    ensures f.name != "" && f.name[0] as int == 'c' as int ==> f.name[0] == 'c'
    ensures f.name != "" && f.name[0] as int == 't' as int ==> f.name[0] == 't'
    ensures f.name != "" ==> f.name[0] as int % 256 == f.name[0] as int
  {
    HoldsConcat(mem, p, Ascii(f.name) + [EQUALS], f.value);
    HoldsAt(mem, p, Content(f), 0);
    if f.name != "" {
      CleanName(f);
    }
  }

  /** One frame: the fast reader does what the field says, for the operation code always and for the rest when the
      value has its full length. */
  lemma GlanceStep(mem: seq<byte>, p: nat, f: Field, h: Header, g: Header, room: nat)
    requires GoodField(f) && Holds(mem, p, Content(f)) && Legible(f, room) && p + |Content(f)| + room <= |mem|
    requires h.op == g.op
    ensures p < |mem| && p + |f.name| + 1 + Need(mem[p]) <= |mem|
    ensures Glance(mem, p, p + |f.name| + 1, h).op == GlanceField(f, g).op
    ensures Sized(f) && h == g ==> Glance(mem, p, p + |f.name| + 1, h) == GlanceField(f, g)
  {
    hide ReadU32, ReadTime, Holds;
    GlancePlace(mem, p, f);
    var v := p + |f.name| + 1;
    if f.name == "" {
    } else if f.name[0] == 'o' {
      HoldsAt(mem, v, f.value, 0);
    } else if f.name[0] == 'c' && |f.value| >= 4 {
      SameU32(mem, v, f.value, 0);
    } else if f.name[0] == 't' && |f.value| >= 8 {
      SameTime(mem, v, f.value);
    }
  }

  /** View::iterator::readHeader: dispatch on the first letter, no copies. */
  method ReadHeader(mem: seq<byte>, p: nat, len: nat, ghost fs: seq<Field>, ghost room: nat) returns (h: Header)
    requires GoodFields(fs) && Holds(mem, p, Encode(fs)) && len == |Encode(fs)|
    requires p + len + room <= |mem| && forall i :: 0 <= i < |fs| ==> Legible(fs[i], room)
    ensures h.op == GlanceAll(fs).op
    ensures (forall i :: 0 <= i < |fs| ==> Sized(fs[i])) ==> h == GlanceAll(fs)
  {
    hide Glance, GlanceField, StrStr, Content, ReadU32, Need, Legible, Sized, GoodField, AtFrame, Holds, Frames;
    FieldsRoundTrip(fs);
    h := NO_HEADER;
    var q: nat, end := p, p + len;
    ghost var contents, i: nat := Contents(fs), 0;
    AtFrameStart(mem, p, contents);
    while q < end
      invariant i <= |fs| && AtFrame(mem, q, contents, i, end)
      invariant h.op == GlanceAll(fs[..i]).op
      invariant (forall j :: 0 <= j < i ==> Sized(fs[j])) ==> h == GlanceAll(fs[..i])
      decreases |fs| - i
    {
      AtFrameStep(mem, q, contents, i, end);
      var fieldLen := ReadU32(mem, q);
      q := q + 4;
      StrStrFinds(mem, q, fs[i], 0);
      GlanceStep(mem, q, fs[i], h, GlanceAll(fs[..i]), room);
      var value := StrStr(mem, q).value + 1;
      h := Glance(mem, q, value, h);
      assert fs[..i + 1][..i] == fs[..i];
      q := q + fieldLen;
      i := i + 1;
    }
    AtFrameStep(mem, q, contents, i, end);
    assert fs[..i] == fs;
  }

  /** The header that the map-based reader and its getField calls give. */
  function MapHeader(m: FieldMap): Header {
    Header(
      if "op" in m && |m["op"]| >= 1 then m["op"][0] else UNSET,
      if "conn" in m && |m["conn"]| >= 4 then ReadU32(m["conn"], 0) else 0,
      if "time" in m && |m["time"]| >= 8 then ReadTime(m["time"], 0) else Time(0, 0))
  }

  predicate StartsWith(f: Field, letter: char) {
    f.name != "" && f.name[0] == letter
  }

  /** Among the fields that start with a letter, the last one has the given name. */
  predicate LastIs(fs: seq<Field>, letter: char, name: string) {
    fs == [] ||
    (if StartsWith(fs[|fs| - 1], letter) then fs[|fs| - 1].name == name else LastIs(fs[..|fs| - 1], letter, name))
  }

  /** The field that the fast reader ends up with for a letter is the one that is meant. */
  predicate Clear(fs: seq<Field>) {
    LastIs(fs, 'o', "op") && LastIs(fs, 'c', "conn") && LastIs(fs, 't', "time")
  }

  /** The value has the length that the fast reader takes for granted. */
  predicate LongEnough(f: Field) {
    && (StartsWith(f, 'o') ==> |f.value| >= 1) && (StartsWith(f, 'c') ==> |f.value| >= 4)
    && (StartsWith(f, 't') ==> |f.value| >= 8)
  }

  predicate AllLongEnough(fs: seq<Field>) {
    forall i :: 0 <= i < |fs| ==> LongEnough(fs[i])
  }

  lemma LongEnoughIsSized(f: Field)
    requires GoodField(f) && LongEnough(f)
    ensures Sized(f)
  {
    if f.name != "" {
      var c := f.name[0];
      assert c as int == 'o' as int ==> c == 'o';
      assert c as int == 'c' as int ==> c == 'c';
      assert c as int == 't' as int ==> c == 't';
    }
  }

  lemma NamesDiffer()
    ensures "op" != "conn" && "op" != "time" && "conn" != "time"
  {
    assert "op"[0] != "conn"[0] && "op"[0] != "time"[0] && "conn"[0] != "time"[0];
  }

  /** The two readers agree when the last field of each letter is the one that is meant, whatever the order and
      repetition of fields. */
  lemma {:induction false} FastHeaderAgrees(fs: seq<Field>)
    requires AllLongEnough(fs)
    ensures LastIs(fs, 'o', "op") ==> GlanceAll(fs).op == MapHeader(LastWins(fs)).op
    ensures LastIs(fs, 'c', "conn") ==> GlanceAll(fs).connectionId == MapHeader(LastWins(fs)).connectionId
    ensures LastIs(fs, 't', "time") ==> GlanceAll(fs).timestamp == MapHeader(LastWins(fs)).timestamp
  {
    hide ReadU32, ReadTime;
    if fs != [] {
      var f := fs[|fs| - 1];
      FastHeaderAgrees(fs[..|fs| - 1]);
      NamesDiffer();
      assert LongEnough(f);
      assert !StartsWith(f, 'o') ==> f.name != "op";
      assert !StartsWith(f, 'c') ==> f.name != "conn";
      assert !StartsWith(f, 't') ==> f.name != "time";
    }
  }

  /** Fields with the same names and value lengths. */
  predicate SameShape(fs: seq<Field>, gs: seq<Field>) {
    |fs| == |gs| && forall i :: 0 <= i < |fs| ==> gs[i].name == fs[i].name && |gs[i].value| == |fs[i].value|
  }

  /** fs with the value of field i made of one byte. */
  function Filled(fs: seq<Field>, i: nat, b: byte): (gs: seq<Field>)
    requires i < |fs|
    ensures SameShape(fs, gs)
  {
    fs[i := Field(fs[i].name, seq(|fs[i].value|, _ => b))]
  }

  /** The position of the last field that starts with a letter. */
  lemma {:induction false} LastStarting(fs: seq<Field>, letter: char, name: string) returns (i: nat)
    requires !LastIs(fs, letter, name)
    ensures i < |fs| && StartsWith(fs[i], letter) && fs[i].name != name
    ensures forall j :: i < j < |fs| ==> !StartsWith(fs[j], letter)
  {
    i := |fs| - 1;
    if !StartsWith(fs[i], letter) {
      i := LastStarting(fs[..i], letter, name);
    }
  }

  /** The fast reader ends up with the last field of a letter. */
  lemma {:induction false} GlanceIsLast(fs: seq<Field>, i: nat)
    requires AllLongEnough(fs) && i < |fs|
    ensures StartsWith(fs[i], 'o') && (forall j :: i < j < |fs| ==> !StartsWith(fs[j], 'o')) ==>
      GlanceAll(fs).op == fs[i].value[0]
    ensures StartsWith(fs[i], 'c') && (forall j :: i < j < |fs| ==> !StartsWith(fs[j], 'c')) ==>
      GlanceAll(fs).connectionId == ReadU32(fs[i].value, 0)
    ensures StartsWith(fs[i], 't') && (forall j :: i < j < |fs| ==> !StartsWith(fs[j], 't')) ==>
      GlanceAll(fs).timestamp == ReadTime(fs[i].value, 0)
  {
    hide ReadU32, ReadTime;
    var n := |fs| - 1;
    assert LongEnough(fs[i]) && LongEnough(fs[n]);
    if i < n {
      GlanceIsLast(fs[..n], i);
    }
  }

  /** For the operation code that needs no length but its own. */
  lemma {:induction false} CodeIsLast(fs: seq<Field>, i: nat)
    requires i < |fs| && StartsWith(fs[i], 'o') && |fs[i].value| >= 1
    requires forall j :: i < j < |fs| ==> !StartsWith(fs[j], 'o')
    ensures GlanceAll(fs).op == fs[i].value[0]
  {
    var n := |fs| - 1;
    if i < n {
      CodeIsLast(fs[..n], i);
    }
  }

  lemma {:induction false} NoCodeIsUnset(fs: seq<Field>)
    requires forall i :: 0 <= i < |fs| ==> !StartsWith(fs[i], 'o')
    ensures GlanceAll(fs).op == UNSET
  {
    hide ReadU32, ReadTime;
    if fs != [] {
      NoCodeIsUnset(fs[..|fs| - 1]);
    }
  }

  /** A change of one value is seen under its own name only. */
  lemma {:induction false} OtherNamesStay(fs: seq<Field>, i: nat, b: byte, name: string)
    requires i < |fs| && fs[i].name != name
    ensures name in LastWins(Filled(fs, i, b)) <==> name in LastWins(fs)
    ensures name in LastWins(fs) ==> LastWins(Filled(fs, i, b))[name] == LastWins(fs)[name]
  {
    var n := |fs| - 1;
    if i < n {
      OtherNamesStay(fs[..n], i, b, name);
      assert Filled(fs, i, b)[..n] == Filled(fs[..n], i, b);
    } else {
      assert Filled(fs, i, b)[..n] == fs[..n];
    }
  }

  lemma FilledValues(v: seq<byte>, w: seq<byte>)
    requires |v| == |w| && (forall i :: 0 <= i < |v| ==> v[i] == 0) && (forall i :: 0 <= i < |w| ==> w[i] == 1)
    ensures |v| >= 4 ==> ReadU32(v, 0) != ReadU32(w, 0)
    ensures |v| >= 8 ==> ReadTime(v, 0) != ReadTime(w, 0)
  {
  }

  predicate Agree(fs: seq<Field>) {
    GlanceAll(fs) == MapHeader(LastWins(fs))
  }

  /** Values under which the readers differ, when the last field of some letter is not the one that is meant. */
  lemma ReadersDiffer(fs: seq<Field>, i: nat)
    requires AllLongEnough(fs) && i < |fs|
    requires
      || (StartsWith(fs[i], 'o') && fs[i].name != "op" && forall j :: i < j < |fs| ==> !StartsWith(fs[j], 'o'))
      || (StartsWith(fs[i], 'c') && fs[i].name != "conn" && forall j :: i < j < |fs| ==> !StartsWith(fs[j], 'c'))
      || (StartsWith(fs[i], 't') && fs[i].name != "time" && forall j :: i < j < |fs| ==> !StartsWith(fs[j], 't'))
    ensures !Agree(Filled(fs, i, 0)) || !Agree(Filled(fs, i, 1))
  {
    hide ReadU32, ReadTime, GlanceAll, LastWins;
    var g, h := Filled(fs, i, 0), Filled(fs, i, 1);
    assert LongEnough(fs[i]) && LongEnough(g[i]) && LongEnough(h[i]);
    GlanceIsLast(g, i);
    GlanceIsLast(h, i);
    FilledValues(g[i].value, h[i].value);
    var name := if StartsWith(fs[i], 'o') then "op" else if StartsWith(fs[i], 'c') then "conn" else "time";
    OtherNamesStay(fs, i, 0, name);
    OtherNamesStay(fs, i, 1, name);
  }

  /** Exactly when the first-letter reader is right: for given names and lengths it agrees with the map-based one
      whatever the values are, iff the last field of each letter is the one that is meant. */
  lemma FastHeaderIsExact(fs: seq<Field>)
    requires AllLongEnough(fs)
    ensures Clear(fs) <==> forall gs :: SameShape(fs, gs) ==> Agree(gs)
  {
    hide GlanceAll, MapHeader, LastWins;
    if Clear(fs) {
      forall gs | SameShape(fs, gs)
        ensures Agree(gs)
      {
        ShapeDecides(fs, gs);
        FastHeaderAgrees(gs);
      }
    } else {
      var i;
      if !LastIs(fs, 'o', "op") {
        i := LastStarting(fs, 'o', "op");
      } else if !LastIs(fs, 'c', "conn") {
        i := LastStarting(fs, 'c', "conn");
      } else {
        i := LastStarting(fs, 't', "time");
      }
      ReadersDiffer(fs, i);
      assert SameShape(fs, Filled(fs, i, 0)) && SameShape(fs, Filled(fs, i, 1));
    }
  }

  lemma ShapeDecides(fs: seq<Field>, gs: seq<Field>)
    requires SameShape(fs, gs) && AllLongEnough(fs)
    ensures AllLongEnough(gs) && (Clear(fs) <==> Clear(gs))
  {
    forall i | 0 <= i < |gs|
      ensures LongEnough(gs[i])
    {
      assert LongEnough(fs[i]);
    }
    SameLast(fs, gs, 'o', "op");
    SameLast(fs, gs, 'c', "conn");
    SameLast(fs, gs, 't', "time");
  }

  lemma {:induction false} SameLast(fs: seq<Field>, gs: seq<Field>, letter: char, name: string)
    requires SameShape(fs, gs)
    ensures LastIs(fs, letter, name) <==> LastIs(gs, letter, name)
  {
    if fs != [] {
      SameLast(fs[..|fs| - 1], gs[..|gs| - 1], letter, name);
    }
  }

  /** A header with op, conn and time fields and then a topic field. */
  predicate TopicLast(op: Field, conn: Field, time: Field, topic: Field) {
    && op.name == "op" && conn.name == "conn" && time.name == "time" && topic.name == "topic"
    && |op.value| >= 1 && |conn.value| >= 4 && |time.value| >= 8 && |topic.value| >= 8
  }

  /** In such a header the topic field is taken for the time, whatever it is. */
  lemma TopicIsTakenForTime(op: Field, conn: Field, time: Field, topic: Field)
    requires TopicLast(op, conn, time, topic)
    ensures
      var fs := [op, conn, time, topic];
      && AllLongEnough(fs)
      && MapHeader(LastWins(fs)) == Header(op.value[0], ReadU32(conn.value, 0), ReadTime(time.value, 0))
      && GlanceAll(fs) == Header(op.value[0], ReadU32(conn.value, 0), ReadTime(topic.value, 0))
  {
    hide GlanceAll, LastWins, ReadU32, ReadTime, MapHeader;
    var fs := [op, conn, time, topic];
    FirstLetters(op, conn, time, topic);
    assert AllLongEnough(fs);
    assert GlanceAll(fs) == Header(op.value[0], ReadU32(conn.value, 0), ReadTime(topic.value, 0)) by {
      GlanceIsLast(fs, 0);
      GlanceIsLast(fs, 1);
      GlanceIsLast(fs, 3);
    }
    TopicIsNotTime(op, conn, time, topic);
  }

  lemma FirstLetters(op: Field, conn: Field, time: Field, topic: Field)
    requires TopicLast(op, conn, time, topic)
    ensures op.name[0] == 'o' && conn.name[0] == 'c' && time.name[0] == 't' && topic.name[0] == 't'
    ensures "op" != "conn" && "op" != "time" && "op" != "topic"
    ensures "conn" != "time" && "conn" != "topic" && "time" != "topic"
  {
    assert "op"[0] == 'o' && "conn"[0] == 'c' && "time"[0] == 't' && "topic"[0] == 't' && "topic"[1] != "time"[1];
  }

  lemma TopicIsNotTime(op: Field, conn: Field, time: Field, topic: Field)
    requires TopicLast(op, conn, time, topic)
    ensures MapHeader(LastWins([op, conn, time, topic])) ==
      Header(op.value[0], ReadU32(conn.value, 0), ReadTime(time.value, 0))
  {
    hide LastWins, ReadU32, ReadTime;
    var fs := [op, conn, time, topic];
    FirstLetters(op, conn, time, topic);
    LastWinsMeaning(fs, "op");
    LastWinsMeaning(fs, "conn");
    LastWinsMeaning(fs, "time");
    assert fs[0].name == "op" && fs[1].name == "conn" && fs[2].name == "time";
  }

  lemma ShortNamesAreGood(f: Field)
    requires f.name in {"op", "conn", "time", "topic"} && |f.value| <= 8
    ensures GoodField(f)
  {
  }

  /** A message header on which the two readers differ. */
  lemma FastHeaderMistakesTopic()
    ensures
      var op, conn := Field("op", [MESSAGE_DATA]), Field("conn", [0, 0, 0, 0]);
      var time, topic := Field("time", [5, 0, 0, 0, 0, 0, 0, 0]), Field("topic", [1, 1, 1, 1, 1, 1, 1, 1]);
      var fs := [op, conn, time, topic];
      && GoodFields(fs) && AllLongEnough(fs)
      && MapHeader(LastWins(fs)) == Header(MESSAGE_DATA, 0, Time(5, 0))
      && GlanceAll(fs) == Header(MESSAGE_DATA, 0, Time(0x0101_0101, 0x0101_0101))
  {
    hide GlanceAll, LastWins, MapHeader, AllLongEnough, GoodField;
    var op, conn := Field("op", [MESSAGE_DATA]), Field("conn", [0, 0, 0, 0]);
    var time, topic := Field("time", [5, 0, 0, 0, 0, 0, 0, 0]), Field("topic", [1, 1, 1, 1, 1, 1, 1, 1]);
    TopicIsTakenForTime(op, conn, time, topic);
    ShortNamesAreGood(op);
    ShortNamesAreGood(conn);
    ShortNamesAreGood(time);
    ShortNamesAreGood(topic);
  }

  // ---------- Records ----------

  /** A record: its header fields and its data. */
  datatype Record = Record(fields: seq<Field>, data: seq<byte>)

  function RecordBytes(r: Record): seq<byte> {
    var h := Encode(r.fields);
    U32(|h| % TWO_TO_32) + h + U32(|r.data| % TWO_TO_32) + r.data
  }

  /** record_t: positions instead of pointers. */
  datatype RecordView = RecordView(headerLen: nat, header: nat, dataLen: nat, data: nat)

  predicate SmallRecord(r: Record) {
    GoodFields(r.fields) && |Encode(r.fields)| < TWO_TO_32 && |r.data| < TWO_TO_32
  }

  lemma OpInBytes()
    ensures Content(Field("op", [2])) == [111, 112, 61, 2]
    ensures U32(4) == [4, 0, 0, 0] && U32(8) == [8, 0, 0, 0] && U32(1) == [1, 0, 0, 0]
  {
    assert "op"[0] == 'o' && "op"[1] == 'p' && Ascii("op") == [111, 112];
  }

  /** The bytes of a record with the field op = 2 and one byte of data: length of the header, length of the field, the
      field, length of the data, the data. */
  lemma RecordInBytes()
    ensures RecordBytes(Record([Field("op", [2])], [9])) ==
      [8, 0, 0, 0] + ([4, 0, 0, 0] + [111, 112, 61, 2]) + [1, 0, 0, 0] + [9]
  {
    hide Content, U32;
    var c := Contents([Field("op", [2])]);
    OpInBytes();
    assert c == [Content(Field("op", [2]))] && Frames(c) == Frame(c[0]) + Frames(c[1..]) && Frames(c[1..]) == [];
  }

  lemma RecordParts(mem: seq<byte>, p: nat, r: Record)
    requires SmallRecord(r) && Holds(mem, p, RecordBytes(r))
    ensures
      var n := |Encode(r.fields)|;
      && p + 4 <= |mem| && ReadU32(mem, p) == n
      && Holds(mem, p + 4, Encode(r.fields))
      && p + 8 + n <= |mem| && ReadU32(mem, p + 4 + n) == |r.data|
      && Holds(mem, p + 8 + n, r.data)
      && |RecordBytes(r)| == 8 + n + |r.data|
  {
    hide Encode, U32, ReadU32;
    var h := Encode(r.fields);
    HoldsConcat(mem, p, U32(|h|) + h + U32(|r.data|), r.data);
    HoldsConcat(mem, p, U32(|h|) + h, U32(|r.data|));
    HoldsConcat(mem, p, U32(|h|), h);
    U32RoundTrip(mem, p, |h|);
    U32RoundTrip(mem, p + 4 + |h|, |r.data|);
  }

  function RecordsBytes(rs: seq<Record>): seq<byte> {
    if rs == [] then [] else RecordBytes(rs[0]) + RecordsBytes(rs[1..])
  }

  lemma RecordsStep(mem: seq<byte>, p: nat, rs: seq<Record>, k: nat)
    requires k < |rs| && Holds(mem, p, RecordsBytes(rs[k..]))
    ensures Holds(mem, p, RecordBytes(rs[k]))
    ensures Holds(mem, p + |RecordBytes(rs[k])|, RecordsBytes(rs[k + 1..]))
    ensures |RecordsBytes(rs[k..])| == |RecordBytes(rs[k])| + |RecordsBytes(rs[k + 1..])|
  {
    hide RecordBytes;
    assert rs[k..][0] == rs[k] && rs[k..][1..] == rs[k + 1..];
    HoldsConcat(mem, p, RecordBytes(rs[k]), RecordsBytes(rs[k + 1..]));
  }

  lemma {:induction false} RecordsConcat(mem: seq<byte>, p: nat, a: seq<Record>, b: seq<Record>)
    ensures RecordsBytes(a + b) == RecordsBytes(a) + RecordsBytes(b)
    ensures Holds(mem, p, RecordsBytes(a + b)) <==>
      Holds(mem, p, RecordsBytes(a)) && Holds(mem, p + |RecordsBytes(a)|, RecordsBytes(b))
  {
    hide RecordBytes, Holds;
    if a == [] {
      assert a + b == b;
    } else {
      assert (a + b)[0] == a[0] && (a + b)[1..] == a[1..] + b;
      RecordsConcat(mem, p, a[1..], b);
    }
    HoldsConcat(mem, p, RecordsBytes(a), RecordsBytes(b));
  }

  /** Bag::readRecord: where the header and the data of the record at p lie, and where the next record starts. */
  method ReadRecord(mem: seq<byte>, p: nat, ghost r: Record) returns (v: RecordView, next: nat)
    requires SmallRecord(r) && Holds(mem, p, RecordBytes(r))
    ensures v.headerLen == |Encode(r.fields)| && Holds(mem, v.header, Encode(r.fields))
    ensures v.dataLen == |r.data| && Holds(mem, v.data, r.data)
    ensures v.header == p + 4 && v.data == p + 8 + v.headerLen && next == p + |RecordBytes(r)|
  {
    hide Encode, RecordBytes;
    RecordParts(mem, p, r);
    var headerLen := ReadU32(mem, p);
    var header := p + 4;
    var dataLen := ReadU32(mem, header + headerLen);
    var data := header + headerLen + 4;
    v := RecordView(headerLen, header, dataLen, data);
    next := data + dataLen;
  }

  /** Bag::readHeader on a record whose fields are well formed. */
  method ReadRecordHeader(mem: seq<byte>, v: RecordView, ghost fs: seq<Field>) returns (m: FieldMap)
    requires GoodFields(fs) && Holds(mem, v.header, Encode(fs)) && v.headerLen == |Encode(fs)|
    ensures m == LastWins(fs)
  {
    FieldsRoundTrip(fs);
    var r := ReadFields(mem, v.header, v.headerLen, Contents(fs));
    m := r.value;
  }
}
