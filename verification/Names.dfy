/**
  8.3 names in code page 932: from a path segment to the 11 bytes of an entry
  (create_name) and back to text (get_fileinfo).
  */
module Names {
  import opened Bytes
  import opened Entries
  import opened Directory

  const RDDEM := 0x05   // stands for a leading E5 in an entry
  const SPACE := 0x20
  const PERIOD := 0x2E
  const BLANK: Name11 := seq(11, _ => SPACE)

  /** A path as the source reads it: zero after its last byte. */
  function ByteIn(p: seq<byte>, i: nat): byte {
    if i < |p| then p[i] else 0
  }

  predicate IsSeparator(c: byte) {
    c == 0x2F || c == 0x5C
  }

  predicate IsLower(c: byte) {
    0x61 <= c <= 0x7A
  }

  function Upper(c: byte): byte {
    if IsLower(c) then c - 0x20 else c
  }

  /** The single-byte characters an 8.3 name may not have: * + , : ; < = > [ ] | " ? and DEL. */
  predicate Illegal(c: byte) {
    || c == 0x2A || c == 0x2B || c == 0x2C || 0x3A <= c <= 0x3F || c == 0x5B || c == 0x5D || c == 0x7C
    || c == 0x22 || c == 0x7F
  }

  /** First and second bytes of double-byte characters. */
  predicate Dbc1(c: byte) {
    0x81 <= c <= 0x9F || 0xE0 <= c <= 0xFC
  }

  predicate Dbc2(c: byte) {
    0x40 <= c <= 0x7E || 0x80 <= c <= 0xFC
  }

  /** The name as it is stored: a leading E5 would mark a deleted entry. */
  function Stored(sfn: Name11): Name11 {
    if sfn[0] == DDEM then sfn[0 := RDDEM] else sfn
  }

  /** What the loop of create_name answers from a state on: the name, or None for an invalid one. */
  function Parse(p: seq<byte>, si: nat, sfn: Name11, i: nat, ni: nat): Option<Name11>
    requires i <= ni && (ni == 8 || ni == 11)
    decreases |p| - si
  {
    var c := ByteIn(p, si);
    if c <= SPACE || IsSeparator(c) then
      if i == 0 then None else Some(Stored(sfn))
    else if c == PERIOD || i >= ni then
      if ni == 11 || c != PERIOD then None else Parse(p, si + 1, sfn, 8, 11)
    else if Dbc1(c) then
      var d := ByteIn(p, si + 1);
      if !Dbc2(d) || i >= ni - 1 then None else Parse(p, si + 2, sfn[i := c][i + 1 := d], i + 2, ni)
    else if Illegal(c) then None
    else Parse(p, si + 1, sfn[i := Upper(c)], i + 1, ni)
  }

  /** create_name for the segment at the start of a path. */
  method CreateName(p: seq<byte>) returns (res: Result, fn: Name11)
    ensures res == if Parse(p, 0, BLANK, 0, 8).Some? then Ok else InvalidName
    ensures res == Ok ==> Parse(p, 0, BLANK, 0, 8) == Some(fn)
    ensures res == Ok <==> exists body, ext, dotted :: Segment(p, body, ext, dotted)
    ensures forall body, ext, dotted :: Segment(p, body, ext, dotted) ==> Named(fn, body, ext)
  {
    Accepts(p);
    hide Segment, Named;
    fn := BLANK;
    var si, i, ni := 0, 0, 8;
    while true
      invariant i <= ni && (ni == 8 || ni == 11)
      invariant Parse(p, si, fn, i, ni) == Parse(p, 0, BLANK, 0, 8)
      decreases |p| - si
    {
      var c := ByteIn(p, si);
      si := si + 1;
      if c <= SPACE || IsSeparator(c) {
        break;
      }
      if c == PERIOD || i >= ni {
        if ni == 11 || c != PERIOD {
          return InvalidName, fn;
        }
        i, ni := 8, 11;
        continue;
      }
      if Dbc1(c) {
        var d := ByteIn(p, si);
        si := si + 1;
        if !Dbc2(d) || i >= ni - 1 {
          return InvalidName, fn;
        }
        fn := fn[i := c][i + 1 := d];
        i := i + 2;
      } else {
        if Illegal(c) {
          return InvalidName, fn;
        }
        fn := fn[i := Upper(c)];
        i := i + 1;
      }
    }
    if i == 0 {
      return InvalidName, fn;
    }
    if fn[0] == DDEM {
      fn := fn[0 := RDDEM];
    }
    res := Ok;
  }

  /** Segments of the form are accepted, with their names, and no other paths. */
  lemma Accepts(p: seq<byte>)
    ensures Parse(p, 0, BLANK, 0, 8).Some? <==> exists body, ext, dotted :: Segment(p, body, ext, dotted)
    ensures forall body, ext, dotted :: Segment(p, body, ext, dotted) ==>
      Parse(p, 0, BLANK, 0, 8).Some? && Named(Parse(p, 0, BLANK, 0, 8).value, body, ext)
  {
    hide Parse, Segment, Named, NameOf;
    if Parse(p, 0, BLANK, 0, 8).Some? {
      var body, ext, dotted := AcceptedSegment(p);
    }
    forall body, ext, dotted | Segment(p, body, ext, dotted)
      ensures Parse(p, 0, BLANK, 0, 8).Some?
      ensures |body| <= 8 && |ext| <= 3 && Named(Parse(p, 0, BLANK, 0, 8).value, body, ext)
    {
      FieldsOf(p, body, ext, dotted);
      SegmentAccepted(p, body, ext, dotted);
    }
  }

  /** The text byte si of an entry's name stands for. */
  function Piece(sfn: Name11, si: nat): seq<byte>
    requires si < 11
  {
    if sfn[si] == SPACE then []
    else if si == 8 then [PERIOD, if sfn[si] == RDDEM then DDEM else sfn[si]]
    else [if sfn[si] == RDDEM then DDEM else sfn[si]]
  }

  /** The text of an entry's name from byte si on. */
  function Print(sfn: Name11, si: nat): seq<byte>
    requires si <= 11
    decreases 11 - si
  {
    if si == 11 then [] else Piece(sfn, si) + Print(sfn, si + 1)
  }

  lemma Joined(a: seq<byte>, b: seq<byte>, c: seq<byte>)
    ensures (a + b) + c == a + (b + c)
  {
  }

  /** The loop of get_fileinfo that copies the name. */
  method GetName(sfn: Name11) returns (fname: seq<byte>)
    ensures fname == Print(sfn, 0)
  {
    hide Print;
    fname := [];
    var si := 0;
    assert Print(sfn, 11) == [] by {
      PrintEnd(sfn);
    }
    while si < 11
      invariant si <= 11 && fname + Print(sfn, si) == Print(sfn, 0)
    {
      ghost var was := fname;
      PrintOn(sfn, si);
      Joined(was, Piece(sfn, si), Print(sfn, si + 1));
      var c := sfn[si];
      si := si + 1;
      if c == SPACE {
        continue;
      }
      if c == RDDEM {
        c := DDEM;
      }
      if si == 9 {
        fname := fname + [PERIOD];
      }
      fname := fname + [c];
      assert fname == was + Piece(sfn, si - 1);
    }
  }

  lemma PrintEnd(sfn: Name11)
    ensures Print(sfn, 11) == []
  {
  }

  lemma PrintOn(sfn: Name11, si: nat)
    requires si < 11
    ensures Print(sfn, si) == Piece(sfn, si) + Print(sfn, si + 1)
  {
  }

  // ---- the form of a segment, in bytes

  /** A character of one byte as a segment may have it. */
  predicate Single(c: byte) {
    && c > 0x20 && !(0x81 <= c <= 0x9F) && !(0xE0 <= c <= 0xFC)
    && c != 0x22 && !(0x2A <= c <= 0x2C) && c != 0x2E && c != 0x2F && !(0x3A <= c <= 0x3F)
    && !(0x5B <= c <= 0x5D) && c != 0x7C && c != 0x7F
  }

  /** A character of two bytes. */
  predicate Pair(c: byte, d: byte) {
    (0x81 <= c <= 0x9F || 0xE0 <= c <= 0xFC) && (0x40 <= d <= 0x7E || 0x80 <= d <= 0xFC)
  }

  /** A body or an extension: whole characters, double-byte ones never split. */
  ghost predicate Field(f: seq<byte>) {
    || f == []
    || (Single(f[0]) && Field(f[1..]))
    || (|f| >= 2 && Pair(f[0], f[1]) && Field(f[2..]))
  }

  /** A field in capitals: 20 less for the letters 61 to 7A, pairs as they are. */
  function Folded(f: seq<byte>): (r: seq<byte>)
    ensures |r| == |f|
  {
    if f == [] then []
    else if |f| >= 2 && Pair(f[0], f[1]) then f[..2] + Folded(f[2..])
    else [if 0x61 <= f[0] <= 0x7A then f[0] - 0x20 else f[0]] + Folded(f[1..])
  }

  /** Body, and after a period the extension, up to the end of the path or a separator. */
  ghost predicate Segment(p: seq<byte>, body: seq<byte>, ext: seq<byte>, dotted: bool) {
    && |body| <= 8 && |ext| <= 3 && Field(body) && Field(ext)
    && (if dotted then body + [0x2E] + ext <= p else body != [] && ext == [] && body <= p)
    && var at := if dotted then |body| + 1 + |ext| else |body|;
    (at < |p| ==> p[at] <= 0x20 || p[at] == 0x2F || p[at] == 0x5C)
  }

  /** The 11 bytes: both fields in capitals and padded with blanks; a leading E5 is replaced. */
  ghost predicate Named(n: Name11, body: seq<byte>, ext: seq<byte>)
    requires |body| <= 8 && |ext| <= 3
  {
    && (forall k :: 1 <= k < 8 ==> n[k] == if k < |body| then Folded(body)[k] else 0x20)
    && (n[0] == if body == [] then 0x20 else if Folded(body)[0] == 0xE5 then 0x05 else Folded(body)[0])
    && (forall k :: 8 <= k < 11 ==> n[k] == if k - 8 < |ext| then Folded(ext)[k - 8] else 0x20)
  }

  /** Body and extension padded with blanks. */
  function Padded(body: seq<byte>, ext: seq<byte>): Name11
    requires |body| <= 8 && |ext| <= 3
  {
    body + seq(8 - |body|, _ => SPACE) + ext + seq(3 - |ext|, _ => SPACE)
  }

  /** The name of a body and an extension. */
  function NameOf(body: seq<byte>, ext: seq<byte>): Name11
    requires |body| <= 8 && |ext| <= 3
  {
    Stored(Padded(Folded(body), Folded(ext)))
  }

  lemma NameBytes(body: seq<byte>, ext: seq<byte>)
    requires |body| <= 8 && |ext| <= 3
    ensures Named(NameOf(body, ext), body, ext)
  {
  }

  lemma {:induction false} FieldAppend(f: seq<byte>, t: seq<byte>)
    requires Field(f) && Field(t)
    ensures Field(f + t) && Folded(f + t) == Folded(f) + Folded(t)
    decreases |f|
  {
    if f == [] {
      assert f + t == t && Folded(f) + Folded(t) == Folded(t);
    } else {
      assert (f + t)[1..] == f[1..] + t;
      assert |f| >= 2 ==> (f + t)[2..] == f[2..] + t;
      hide Single, Pair, Field, Folded;
      FieldSplit(f);
      if Single(f[0]) && Field(f[1..]) {
        FieldAppend(f[1..], t);
        FieldSingle(f);
        FieldSingle(f + t);
        Joined([Upper(f[0])], Folded(f[1..]), Folded(t));
      } else {
        FieldAppend(f[2..], t);
        FieldPair(f);
        FieldPair(f + t);
        Joined([f[0], f[1]], Folded(f[2..]), Folded(t));
      }
    }
  }

  lemma FieldSplit(f: seq<byte>)
    requires Field(f) && f != []
    ensures (Single(f[0]) && Field(f[1..])) || (|f| >= 2 && Pair(f[0], f[1]) && Field(f[2..]))
  {
  }

  lemma FieldSingle(f: seq<byte>)
    requires f != [] && Single(f[0]) && Field(f[1..])
    ensures Field(f) && Folded(f) == [Upper(f[0])] + Folded(f[1..])
  {
  }

  lemma FieldPair(f: seq<byte>)
    requires |f| >= 2 && Pair(f[0], f[1]) && Field(f[2..])
    ensures Field(f) && Folded(f) == [f[0], f[1]] + Folded(f[2..])
  {
    assert f[..2] == [f[0], f[1]];
  }

  lemma {:induction false} FieldBytes(f: seq<byte>, k: nat)
    requires Field(f) && k < |f|
    ensures f[k] > SPACE
    decreases |f|
  {
    if Single(f[0]) && Field(f[1..]) {
      if k > 0 {
        FieldBytes(f[1..], k - 1);
      }
    } else if k > 1 {
      FieldBytes(f[2..], k - 2);
    }
  }

  lemma FieldStart(f: seq<byte>)
    requires Field(f) && f != []
    ensures f[0] > SPACE && f[0] != PERIOD && !IsSeparator(f[0])
  {
  }

  /** Capitals form a field, and are their own capitals. */
  lemma {:induction false} FoldedField(f: seq<byte>)
    requires Field(f)
    ensures Field(Folded(f)) && Folded(Folded(f)) == Folded(f)
    decreases |f|
  {
    if f != [] {
      if |f| >= 2 && Pair(f[0], f[1]) {
        FoldedField(f[2..]);
        assert Folded(f)[..2] == f[..2] && Folded(f)[2..] == Folded(f[2..]);
      } else {
        FoldedField(f[1..]);
        assert Folded(f)[1..] == Folded(f[1..]);
      }
    }
  }

  /** In fields without double-byte characters every letter has its capital, byte by byte. */
  lemma {:induction false} FoldedLetters(f: seq<byte>, k: nat)
    requires k < |f| && forall j :: 0 <= j < |f| ==> f[j] < 0x80
    ensures Folded(f)[k] == if 0x61 <= f[k] <= 0x7A then f[k] - 0x20 else f[k]
    decreases |f|
  {
    if k > 0 {
      FoldedLetters(f[1..], k - 1);
    }
  }

  /** Bytes appended to the body or the extension of a padded name. */
  lemma PaddedMore(body: seq<byte>, ext: seq<byte>, t: seq<byte>)
    requires |body| <= 8 && |ext| <= 3
    ensures |body| + |t| <= 8 && ext == [] ==> Patch(Padded(body, ext), |body|, t) == Padded(body + t, ext)
    ensures |ext| + |t| <= 3 ==> Patch(Padded(body, ext), 8 + |ext|, t) == Padded(body, ext + t)
  {
  }

  // ---- a segment is accepted, and nothing else is

  /** What the loop has read up to si: body and extension so far. */
  ghost predicate Taken(p: seq<byte>, si: nat, body: seq<byte>, ext: seq<byte>, sfn: Name11, i: nat, ni: nat) {
    && |body| <= 8 && |ext| <= 3 && Field(body) && Field(ext) && sfn == Padded(Folded(body), Folded(ext))
    && (if ni == 8 then ext == [] && i == |body| && si == |body| && body <= p
        else ni == 11 && i == 8 + |ext| && si == |body| + 1 + |ext| && body + [PERIOD] + ext <= p)
  }

  /** One more character t. */
  lemma TakenMore(p: seq<byte>, si: nat, body: seq<byte>, ext: seq<byte>, sfn: Name11, i: nat, ni: nat, t: seq<byte>)
    returns (body': seq<byte>, ext': seq<byte>)
    requires Taken(p, si, body, ext, sfn, i, ni) && Field(t) && i + |t| <= ni
    requires si + |t| <= |p| && p[si..si + |t|] == t
    ensures Taken(p, si + |t|, body', ext', Patch(sfn, i, Folded(t)), i + |t|, ni)
  {
    hide Field, Padded, Folded;
    PaddedMore(Folded(body), Folded(ext), Folded(t));
    if ni == 8 {
      FieldAppend(body, t);
      body', ext' := body + t, ext;
    } else {
      FieldAppend(ext, t);
      body', ext' := body, ext + t;
      assert body + [PERIOD] + ext' == (body + [PERIOD] + ext) + t;
    }
  }

  /** Every accepted path starts with a segment of the form, and its name is that segment's. */
  lemma {:induction false} ParseForm(p: seq<byte>, si: nat, sfn: Name11, i: nat, ni: nat, body: seq<byte>,
                                     ext: seq<byte>)
    returns (body': seq<byte>, ext': seq<byte>, dotted: bool)
    requires i <= ni && (ni == 8 || ni == 11) && Taken(p, si, body, ext, sfn, i, ni)
    requires Parse(p, si, sfn, i, ni).Some?
    ensures Segment(p, body', ext', dotted) && Parse(p, si, sfn, i, ni) == Some(NameOf(body', ext'))
    decreases |p| - si
  {
    hide Padded, Illegal, Field, Folded, Single, Pair, Taken, Segment, Dbc1;
    var c := ByteIn(p, si);
    if c <= SPACE || IsSeparator(c) {
      body', ext', dotted := body, ext, ni == 11;
      TakenAll(p, si, body, ext, sfn, i, ni);
    } else if c == PERIOD {
      TakenPeriod(p, si, body, ext, sfn, i);
      body', ext', dotted := ParseForm(p, si + 1, sfn, 8, 11, body, ext);
    } else if Dbc1(c) {
      var d := ByteIn(p, si + 1);
      PairIsField(c, d);
      TakenInside(p, si, body, ext, sfn, i, ni, [c, d]);
      body', ext' := TakenMore(p, si, body, ext, sfn, i, ni, [c, d]);
      assert Patch(sfn, i, [c, d]) == sfn[i := c][i + 1 := d];
      body', ext', dotted := ParseForm(p, si + 2, sfn[i := c][i + 1 := d], i + 2, ni, body', ext');
    } else {
      SingleIsField(c);
      TakenInside(p, si, body, ext, sfn, i, ni, [c]);
      body', ext' := TakenMore(p, si, body, ext, sfn, i, ni, [c]);
      assert Patch(sfn, i, [Upper(c)]) == sfn[i := Upper(c)];
      body', ext', dotted := ParseForm(p, si + 1, sfn[i := Upper(c)], i + 1, ni, body', ext');
    }
  }

  lemma TakenAll(p: seq<byte>, si: nat, body: seq<byte>, ext: seq<byte>, sfn: Name11, i: nat, ni: nat)
    requires Taken(p, si, body, ext, sfn, i, ni) && i > 0 && (ByteIn(p, si) <= SPACE || IsSeparator(ByteIn(p, si)))
    ensures Segment(p, body, ext, ni == 11) && Stored(sfn) == NameOf(body, ext)
  {
  }

  lemma TakenPeriod(p: seq<byte>, si: nat, body: seq<byte>, ext: seq<byte>, sfn: Name11, i: nat)
    requires Taken(p, si, body, ext, sfn, i, 8) && ByteIn(p, si) == PERIOD
    ensures Taken(p, si + 1, body, ext, sfn, 8, 11)
  {
    assert body + [PERIOD] + ext == p[..si + 1];
  }

  /** Characters that are not 0 are bytes of the path. */
  lemma TakenInside(p: seq<byte>, si: nat, body: seq<byte>, ext: seq<byte>, sfn: Name11, i: nat, ni: nat, t: seq<byte>)
    requires Taken(p, si, body, ext, sfn, i, ni) && (|t| == 1 || |t| == 2)
    requires forall k :: 0 <= k < |t| ==> t[k] == ByteIn(p, si + k) != 0
    ensures si + |t| <= |p| && p[si..si + |t|] == t
  {
    assert t[|t| - 1] != 0;
  }

  lemma PairIsField(c: byte, d: byte)
    requires Dbc1(c) && Dbc2(d)
    ensures Field([c, d]) && Folded([c, d]) == [c, d]
  {
    assert [c, d][2..] == [] && [c, d][..2] == [c, d];
  }

  lemma SingleIsField(c: byte)
    requires c > SPACE && c != PERIOD && !IsSeparator(c) && !Dbc1(c) && !Illegal(c)
    ensures Field([c]) && Folded([c]) == [Upper(c)]
  {
    assert [c][1..] == [];
  }

  // ---- printing such names and parsing them again

  /** A run of bytes that are printed as they are. */
  lemma {:induction false} PrintRun(sfn: Name11, si: nat, n: nat)
    requires si + n <= 11 && (si > 8 || si + n <= 8)
    requires forall k :: si <= k < si + n ==> sfn[k] > SPACE
    ensures Print(sfn, si) == sfn[si..si + n] + Print(sfn, si + n)
    decreases n
  {
    hide Print;
    if n == 0 {
      assert sfn[si..si] + Print(sfn, si) == Print(sfn, si);
    } else {
      PrintRun(sfn, si + 1, n - 1);
      PrintOn(sfn, si);
      assert sfn[si..si + n] == [sfn[si]] + sfn[si + 1..si + n];
      Joined([sfn[si]], sfn[si + 1..si + n], Print(sfn, si + n));
    }
  }

  lemma {:induction false} PrintBlanks(sfn: Name11, si: nat, n: nat)
    requires si + n <= 11 && forall k :: si <= k < si + n ==> sfn[k] == SPACE
    ensures Print(sfn, si) == Print(sfn, si + n)
    decreases n
  {
    if n > 0 {
      PrintBlanks(sfn, si + 1, n - 1);
      assert [] + Print(sfn, si + 1) == Print(sfn, si + 1);
    }
  }

  /** The text of a name: body, and extension after a period. */
  function Text(body: seq<byte>, ext: seq<byte>): seq<byte> {
    if ext == [] then body else body + [PERIOD] + ext
  }

  lemma PrintExt(sfn: Name11, ext: seq<byte>)
    requires |ext| <= 3 && Field(ext) && sfn[8..] == ext + seq(3 - |ext|, _ => SPACE)
    ensures Print(sfn, 8) == if ext == [] then [] else [PERIOD] + ext
  {
    hide Field;
    forall k | 8 <= k < 11
      ensures sfn[k] == if k - 8 < |ext| then ext[k - 8] else SPACE
    {
      assert sfn[k] == sfn[8..][k - 8];
    }
    PrintBlanks(sfn, 8 + |ext|, 3 - |ext|);
    if ext != [] {
      forall k | 0 <= k < |ext|
        ensures ext[k] > SPACE
      {
        FieldBytes(ext, k);
      }
      PrintRun(sfn, 9, |ext| - 1);
      assert sfn[9..8 + |ext|] == ext[1..];
      assert ext == [ext[0]] + ext[1..];
    }
  }

  lemma BodyBytes(sfn: Name11, body: seq<byte>, k: nat)
    requires |body| <= 8 && Field(body) && sfn[..8] == body + seq(8 - |body|, _ => SPACE) && k < 8
    ensures if k < |body| then sfn[k] == body[k] > SPACE else sfn[k] == SPACE
  {
    hide Field;
    assert sfn[k] == sfn[..8][k];
    if k < |body| {
      FieldBytes(body, k);
    }
  }

  lemma PrintBody(sfn: Name11, body: seq<byte>, n: Name11)
    requires |body| <= 8 && Field(body) && sfn[..8] == body + seq(8 - |body|, _ => SPACE) && n == Stored(sfn)
    ensures Print(n, 0) == body + Print(n, 8)
  {
    hide Field, Print;
    forall k: nat | k < 8
      ensures if k < |body| then sfn[k] == body[k] > SPACE else sfn[k] == SPACE
    {
      BodyBytes(sfn, body, k);
    }
    hide Stored;
    assert sfn[0] == DDEM ==> n == sfn[0 := RDDEM] by {
      StoredIs(sfn);
    }
    assert sfn[0] != DDEM ==> n == sfn by {
      StoredIs(sfn);
    }
    PrintBlanks(n, |body|, 8 - |body|);
    if body != [] {
      PrintRun(n, 1, |body| - 1);
      assert n[1..|body|] == body[1..];
      PrintFirst(n, body);
    } else {
      assert body + Print(n, 8) == Print(n, 8);
    }
  }

  lemma StoredIs(sfn: Name11)
    ensures Stored(sfn) == if sfn[0] == DDEM then sfn[0 := RDDEM] else sfn
  {
  }

  lemma PrintFirst(n: Name11, body: seq<byte>)
    requires 0 < |body| <= 8 && body[0] > SPACE && n[0] == (if body[0] == DDEM then RDDEM else body[0])
    requires Print(n, 1) == body[1..] + Print(n, 8)
    ensures Print(n, 0) == body + Print(n, 8)
  {
    hide Print;
    PrintOn(n, 0);
    assert Piece(n, 0) == [body[0]];
    assert body == [body[0]] + body[1..];
    Joined([body[0]], body[1..], Print(n, 8));
  }

  /** Printing restores a leading E5 and puts the period back. */
  lemma PrintForm(body: seq<byte>, ext: seq<byte>)
    requires |body| <= 8 && |ext| <= 3 && Field(body) && Field(ext)
    ensures Print(Stored(Padded(body, ext)), 0) == Text(body, ext)
  {
    hide Field, Print;
    var sfn := Padded(body, ext);
    var n := Stored(sfn);
    PrintBody(sfn, body, n);
    assert n[8..] == sfn[8..] == ext + seq(3 - |ext|, _ => SPACE);
    PrintExt(n, ext);
  }

  lemma ParseSingle(p: seq<byte>, si: nat, sfn: Name11, i: nat, ni: nat)
    requires (ni == 8 || ni == 11) && i < ni && si < |p| && Single(p[si])
    ensures Parse(p, si, sfn, i, ni) == Parse(p, si + 1, sfn[i := Upper(p[si])], i + 1, ni)
  {
  }

  lemma ParsePair(p: seq<byte>, si: nat, sfn: Name11, i: nat, ni: nat)
    requires (ni == 8 || ni == 11) && i + 1 < ni && si + 1 < |p| && Pair(p[si], p[si + 1])
    ensures Parse(p, si, sfn, i, ni) == Parse(p, si + 2, sfn[i := p[si]][i + 1 := p[si + 1]], i + 2, ni)
  {
  }

  lemma ParsePeriod(p: seq<byte>, si: nat, sfn: Name11, i: nat)
    requires i <= 8 && si < |p| && p[si] == PERIOD
    ensures Parse(p, si, sfn, i, 8) == Parse(p, si + 1, sfn, 8, 11)
  {
  }

  lemma ParseEnd(p: seq<byte>, si: nat, sfn: Name11, i: nat, ni: nat)
    requires (ni == 8 || ni == 11) && 0 < i <= ni && (ByteIn(p, si) <= SPACE || IsSeparator(ByteIn(p, si)))
    ensures Parse(p, si, sfn, i, ni) == Some(Stored(sfn))
  {
  }

  lemma PatchFirst(sfn: Name11, i: nat, f: seq<byte>)
    requires i + |f| <= 11 && f != []
    ensures Patch(sfn[i := f[0]], i + 1, f[1..]) == Patch(sfn, i, f)
    ensures |f| >= 2 ==> Patch(sfn[i := f[0]][i + 1 := f[1]], i + 2, f[2..]) == Patch(sfn, i, f)
  {
  }

  lemma FoldedFirst(f: seq<byte>)
    requires f != [] && Field(f)
    ensures Single(f[0]) && Field(f[1..]) ==> Folded(f)[0] == Upper(f[0]) && Folded(f)[1..] == Folded(f[1..])
    ensures !(Single(f[0]) && Field(f[1..])) ==>
      && |f| >= 2 && Pair(f[0], f[1]) && Field(f[2..])
      && Folded(f)[0] == f[0] && Folded(f)[1] == f[1] && Folded(f)[2..] == Folded(f[2..])
  {
  }

  /** The loop of create_name reads a field and stores it in capitals. */
  lemma {:induction false} ParseField(p: seq<byte>, si: nat, sfn: Name11, i: nat, ni: nat, f: seq<byte>)
    requires (ni == 8 || ni == 11) && i + |f| <= ni && Field(f)
    requires si + |f| <= |p| && p[si..si + |f|] == f
    ensures Parse(p, si, sfn, i, ni) == Parse(p, si + |f|, Patch(sfn, i, Folded(f)), i + |f|, ni)
    decreases |f|
  {
    hide Parse, Single, Pair, Patch, Field, Folded;
    if f == [] {
      PatchNothing(sfn, i, Folded(f));
    } else {
      assert p[si] == f[0];
      PatchFirst(sfn, i, Folded(f));
      FoldedFirst(f);
      if Single(f[0]) && Field(f[1..]) {
        ParseSingle(p, si, sfn, i, ni);
        ParseField(p, si + 1, sfn[i := Upper(f[0])], i + 1, ni, f[1..]);
      } else {
        assert p[si + 1] == f[1];
        ParsePair(p, si, sfn, i, ni);
        ParseField(p, si + 2, sfn[i := f[0]][i + 1 := f[1]], i + 2, ni, f[2..]);
      }
    }
  }

  lemma PatchNothing(sfn: Name11, i: nat, f: seq<byte>)
    requires i <= 11 && f == []
    ensures Patch(sfn, i, f) == sfn
  {
  }

  lemma ParseBody(p: seq<byte>, body: seq<byte>)
    requires |body| <= 8 && Field(body) && body <= p
    ensures Parse(p, 0, BLANK, 0, 8) == Parse(p, |body|, Padded(Folded(body), []), |body|, 8)
  {
    hide Field, Padded, Parse, Patch, Folded;
    BlankIsPadded();
    PaddedMore([], [], Folded(body));
    assert [] + Folded(body) == Folded(body);
    ParseField(p, 0, BLANK, 0, 8, body);
  }

  lemma ParseExt(p: seq<byte>, at: nat, body: seq<byte>, ext: seq<byte>)
    requires |body| <= 8 && |ext| <= 3 && Field(ext) && at + |ext| <= |p| && p[at..at + |ext|] == ext
    ensures Parse(p, at, Padded(body, []), 8, 11) == Parse(p, at + |ext|, Padded(body, Folded(ext)), 8 + |ext|, 11)
  {
    hide Field, Padded, Parse, Patch, Folded;
    PaddedMore(body, [], Folded(ext));
    assert [] + Folded(ext) == Folded(ext);
    ParseField(p, at, Padded(body, []), 8, 11, ext);
  }

  lemma SegmentEnds(p: seq<byte>, body: seq<byte>, ext: seq<byte>, dotted: bool)
    requires Segment(p, body, ext, dotted)
    ensures var at := if dotted then |body| + 1 + |ext| else |body|;
      at <= |p| && (ByteIn(p, at) <= SPACE || IsSeparator(ByteIn(p, at)))
    ensures dotted ==> body <= p && p[|body|] == PERIOD && p[|body| + 1..|body| + 1 + |ext|] == ext
  {
    if dotted {
      var t := body + [0x2E] + ext;
      assert p[..|t|] == t && t[..|body|] == body && p[..|t|][|body|] == 0x2E;
      assert p[|body| + 1..|t|] == p[..|t|][|body| + 1..] == ext;
    }
  }

  /** Every segment of the form is accepted, and which 11 bytes it becomes. */
  lemma SegmentAccepted(p: seq<byte>, body: seq<byte>, ext: seq<byte>, dotted: bool)
    requires Segment(p, body, ext, dotted)
    ensures Parse(p, 0, BLANK, 0, 8) == Some(NameOf(body, ext)) && Named(NameOf(body, ext), body, ext)
  {
    NameBytes(body, ext);
    SegmentEnds(p, body, ext, dotted);
    hide Field, Padded, Parse, Stored, Folded, Named;
    ParseBody(p, body);
    if dotted {
      ParsePeriod(p, |body|, Padded(Folded(body), []), |body|);
      ParseExt(p, |body| + 1, Folded(body), ext);
      ParseEnd(p, |body| + 1 + |ext|, Padded(Folded(body), Folded(ext)), 8 + |ext|, 11);
    } else {
      assert Folded(ext) == [];
      ParseEnd(p, |body|, Padded(Folded(body), []), |body|, 8);
    }
  }

  lemma BlankIsPadded()
    ensures BLANK == Padded([], [])
  {
  }

  /** Names tell the fields apart. */
  lemma NameTellsFields(body: seq<byte>, ext: seq<byte>, body': seq<byte>, ext': seq<byte>)
    requires |body| <= 8 && |ext| <= 3 && Field(body) && Field(ext)
    requires |body'| <= 8 && |ext'| <= 3 && Field(body') && Field(ext')
    ensures NameOf(body, ext) == NameOf(body', ext') <==> Folded(body) == Folded(body') && Folded(ext) == Folded(ext')
  {
    hide Folded, Field, NameOf, Named;
    if NameOf(body, ext) == NameOf(body', ext') {
      var n := NameOf(body, ext);
      NameBytes(body, ext);
      NameBytes(body', ext');
      FoldedBytes(body);
      FoldedBytes(ext);
      FoldedBytes(body');
      FoldedBytes(ext');
      SameFields(n, body, ext, body', ext');
    } else {
      SameNameOf(body, ext, body', ext');
    }
  }

  lemma SameNameOf(body: seq<byte>, ext: seq<byte>, body': seq<byte>, ext': seq<byte>)
    requires |body| <= 8 && |ext| <= 3 && |body'| <= 8 && |ext'| <= 3
    ensures Folded(body) == Folded(body') && Folded(ext) == Folded(ext') ==> NameOf(body, ext) == NameOf(body', ext')
  {
    hide Folded;
  }

  lemma FoldedBytes(f: seq<byte>)
    requires Field(f)
    ensures forall k :: 0 <= k < |f| ==> Folded(f)[k] > 0x20
  {
    hide Field, Folded;
    FoldedField(f);
    forall k | 0 <= k < |f|
      ensures Folded(f)[k] > 0x20
    {
      FieldBytes(Folded(f), k);
    }
  }

  lemma SameFields(n: Name11, body: seq<byte>, ext: seq<byte>, body': seq<byte>, ext': seq<byte>)
    requires |body| <= 8 && |ext| <= 3 && Named(n, body, ext) && |body'| <= 8 && |ext'| <= 3 && Named(n, body', ext')
    requires forall k :: 0 <= k < |body| ==> Folded(body)[k] > 0x20
    requires forall k :: 0 <= k < |ext| ==> Folded(ext)[k] > 0x20
    requires forall k :: 0 <= k < |body'| ==> Folded(body')[k] > 0x20
    requires forall k :: 0 <= k < |ext'| ==> Folded(ext')[k] > 0x20
    ensures Folded(body) == Folded(body') && Folded(ext) == Folded(ext')
  {
    hide Folded;
    SameBody(n, Folded(body), Folded(body'));
    SameExt(n, Folded(ext), Folded(ext'));
  }

  lemma SameBody(n: Name11, f: seq<byte>, g: seq<byte>)
    requires |f| <= 8 && |g| <= 8
    requires forall k :: 0 <= k < |f| ==> f[k] > 0x20
    requires forall k :: 0 <= k < |g| ==> g[k] > 0x20
    requires forall k :: 1 <= k < 8 ==> n[k] == if k < |f| then f[k] else 0x20
    requires forall k :: 1 <= k < 8 ==> n[k] == if k < |g| then g[k] else 0x20
    requires n[0] == if f == [] then 0x20 else if f[0] == 0xE5 then 0x05 else f[0]
    requires n[0] == if g == [] then 0x20 else if g[0] == 0xE5 then 0x05 else g[0]
    ensures f == g
  {
    if f == [] || g == [] {
      assert f == g;
    } else {
      assert f[0] > 0x20 && g[0] > 0x20;
      var s := n[1..8];
      assert f[0] == g[0];
      PaddedTail(n, f);
      PaddedTail(n, g);
      SameField(s, f[1..], g[1..]);
      assert f == [f[0]] + f[1..] && g == [g[0]] + g[1..];
    }
  }

  lemma PaddedTail(n: Name11, f: seq<byte>)
    requires 0 < |f| <= 8 && forall k :: 1 <= k < 8 ==> n[k] == if k < |f| then f[k] else 0x20
    ensures PaddedField(n[1..8], f[1..])
  {
  }

  /** A field and then blanks. */
  ghost predicate PaddedField(s: seq<byte>, f: seq<byte>) {
    |f| <= |s| && forall k :: 0 <= k < |s| ==> s[k] == if k < |f| then f[k] else 0x20
  }

  /** A field is known from its padded form. */
  lemma SameField(s: seq<byte>, f: seq<byte>, g: seq<byte>)
    requires PaddedField(s, f) && forall k :: 0 <= k < |f| ==> f[k] > 0x20
    requires PaddedField(s, g) && forall k :: 0 <= k < |g| ==> g[k] > 0x20
    ensures f == g
  {
    assert |f| < |s| ==> s[|f|] == 0x20;
    assert |g| < |s| ==> s[|g|] == 0x20;
    forall k | 0 <= k < |f|
      ensures f[k] == g[k]
    {
      assert s[k] == f[k];
    }
  }

  lemma SameExt(n: Name11, f: seq<byte>, g: seq<byte>)
    requires |f| <= 3 && |g| <= 3
    requires forall k :: 0 <= k < |f| ==> f[k] > 0x20
    requires forall k :: 0 <= k < |g| ==> g[k] > 0x20
    requires forall k :: 8 <= k < 11 ==> n[k] == if k - 8 < |f| then f[k - 8] else 0x20
    requires forall k :: 8 <= k < 11 ==> n[k] == if k - 8 < |g| then g[k - 8] else 0x20
    ensures f == g
  {
    ExtField(n, f);
    ExtField(n, g);
    SameField(n[8..], f, g);
  }

  lemma ExtField(n: Name11, f: seq<byte>)
    requires |f| <= 3 && forall k :: 8 <= k < 11 ==> n[k] == if k - 8 < |f| then f[k - 8] else 0x20
    ensures PaddedField(n[8..], f)
  {
  }

  /** Two accepted segments have the same name exactly when body and extension agree in capitals. */
  lemma SameName(p: seq<byte>, body: seq<byte>, ext: seq<byte>, dotted: bool,
                 q: seq<byte>, body': seq<byte>, ext': seq<byte>, dotted': bool)
    requires Segment(p, body, ext, dotted) && Segment(q, body', ext', dotted')
    ensures Parse(p, 0, BLANK, 0, 8) == Parse(q, 0, BLANK, 0, 8) <==>
            Folded(body) == Folded(body') && Folded(ext) == Folded(ext')
  {
    hide Parse, Folded, NameOf, Named, Field;
    SegmentAccepted(p, body, ext, dotted);
    SegmentAccepted(q, body', ext', dotted');
    NameTellsFields(body, ext, body', ext');
  }

  /** The segment an accepted path starts with. */
  lemma AcceptedSegment(p: seq<byte>)
    returns (body: seq<byte>, ext: seq<byte>, dotted: bool)
    requires Parse(p, 0, BLANK, 0, 8).Some?
    ensures Segment(p, body, ext, dotted) && Parse(p, 0, BLANK, 0, 8) == Some(NameOf(body, ext))
  {
    hide Parse, NameOf, Segment;
    BlankIsPadded();
    assert Taken(p, 0, [], [], BLANK, 0, 8);
    body, ext, dotted := ParseForm(p, 0, BLANK, 0, 8, [], []);
  }

  /** A name is printed in capitals, with a period in front of an extension. */
  lemma NamePrinted(body: seq<byte>, ext: seq<byte>)
    requires |body| <= 8 && |ext| <= 3 && Field(body) && Field(ext)
    ensures Print(NameOf(body, ext), 0) == Folded(body) + if ext == [] then [] else [0x2E] + Folded(ext)
  {
    hide Padded, Field, Print, Folded, Stored;
    FoldedField(body);
    FoldedField(ext);
    PrintForm(Folded(body), Folded(ext));
    assert Folded(body) + [] == Folded(body);
  }

  /** The segment is a period and nothing else. */
  predicate OnlyPeriod(p: seq<byte>) {
    ByteIn(p, 0) == PERIOD && (ByteIn(p, 1) <= SPACE || IsSeparator(ByteIn(p, 1)))
  }

  lemma BlankIsNameOf()
    ensures BLANK == NameOf([], [])
  {
    BlankIsPadded();
  }

  /** An accepted segment gives only blanks exactly when it is a single period. */
  lemma BlankName(p: seq<byte>, n: Name11)
    requires Parse(p, 0, BLANK, 0, 8) == Some(n)
    ensures n == BLANK <==> OnlyPeriod(p)
  {
    hide Parse, NameOf, Field, Folded;
    BlankIsNameOf();
    NoFields();
    var body, ext, dotted := AcceptedSegment(p);
    NameTellsFields(body, ext, [], []);
    if OnlyPeriod(p) {
      assert [] + [0x2E] + [] <= p;
      assert Segment(p, [], [], true);
      SegmentAccepted(p, [], [], true);
    }
  }

  /**
    Print what an accepted segment became and parse it again: the same 11 bytes,
    exactly when the segment is not a single period (which is accepted, and
    gives only blanks).
    */
  lemma NameRoundTrip(p: seq<byte>, n: Name11)
    requires Parse(p, 0, BLANK, 0, 8) == Some(n)
    ensures Parse(Print(n, 0), 0, BLANK, 0, 8) == Some(n) <==> !OnlyPeriod(p)
  {
    hide Padded, Field, Print, OnlyPeriod, Folded, Parse, Segment;
    BlankName(p, n);
    var body, ext, dotted := AcceptedSegment(p);
    FieldsOf(p, body, ext, dotted);
    NamePrinted(body, ext);
    if n == BLANK {
      BlankIsNameOf();
      NoFields();
      NameTellsFields(body, ext, [], []);
      PeriodAlone();
    } else {
      if Folded(body) == [] && Folded(ext) == [] {
        BlankIsNameOf();
      }
      TextIsSegment(Folded(body), Folded(ext));
      Joined(Folded(body), [PERIOD], Folded(ext));
      SegmentAccepted(Text(Folded(body), Folded(ext)), Folded(body), Folded(ext), Folded(ext) != []);
      assert ext == [] ==> Folded(body) + [] == Folded(body);
      assert NameOf(Folded(body), Folded(ext)) == n;
      assert Print(n, 0) == Text(Folded(body), Folded(ext));
    }
  }

  lemma FieldsOf(p: seq<byte>, body: seq<byte>, ext: seq<byte>, dotted: bool)
    requires Segment(p, body, ext, dotted)
    ensures |body| <= 8 && |ext| <= 3 && Field(body) && Field(ext)
    ensures Field(Folded(body)) && Folded(Folded(body)) == Folded(body)
    ensures Field(Folded(ext)) && Folded(Folded(ext)) == Folded(ext)
  {
    FoldedField(body);
    FoldedField(ext);
  }

  lemma TextIsSegment(body: seq<byte>, ext: seq<byte>)
    requires |body| <= 8 && |ext| <= 3 && Field(body) && Field(ext) && !(body == [] && ext == [])
    ensures Segment(Text(body, ext), body, ext, ext != [])
  {
  }

  lemma NoFields()
    ensures Field([]) && Folded([]) == []
  {
  }

  /** A period alone is accepted, and its name is printed as nothing. */
  lemma PeriodAlone()
    ensures Parse([PERIOD], 0, BLANK, 0, 8) == Some(BLANK) && Print(BLANK, 0) == [] && Parse([], 0, BLANK, 0, 8) == None
  {
    PrintBlanks(BLANK, 0, 11);
    assert Parse([PERIOD], 1, BLANK, 8, 11) == Some(BLANK);
  }

  /** No accepted name looks like a free entry or a dot entry. */
  lemma ParsedIsProper(p: seq<byte>, n: Name11)
    requires Parse(p, 0, BLANK, 0, 8) == Some(n)
    ensures Proper(n) && n[0] != PERIOD
  {
    hide Padded, Field, Parse, Folded, Segment;
    var body, ext, dotted := AcceptedSegment(p);
    FieldsOf(p, body, ext, dotted);
    FirstOfPadded(Folded(body), Folded(ext));
  }

  lemma FirstOfPadded(body: seq<byte>, ext: seq<byte>)
    requires |body| <= 8 && |ext| <= 3 && Field(body)
    ensures Padded(body, ext)[0] >= SPACE && Padded(body, ext)[0] != PERIOD
  {
    if body != [] {
      FieldStart(body);
    }
  }
}
