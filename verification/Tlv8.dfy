/** The TLV8 codec of `hap-tlv8`: every pairing message and PDU body is written and parsed with it. */
module Tlv8 {
  import opened Bytes

  /** The separator type, never reassembled. */
  const SEPARATOR: byte := 0xFF

  /** The widest value one fragment carries; a full fragment means more follows. */
  const FULL := 255

  datatype Item = Item(ty: byte, value: bytes)

  datatype Error = UnexpectedEof | IntegerTooLarge(actual: nat)

  /** The run being accumulated, and whether its last fragment was full. */
  datatype Run = NoRun | Run(ty: byte, open: bool)

  predicate Continues(run: Run, ty: byte)
  {
    run.Run? && run.open && run.ty == ty
  }

  // ---- Writer ----

  /** The fragments of one value: full ones, then exactly one that is not full. */
  function Encode(ty: byte, value: bytes): (out: bytes)
    ensures |out| >= 2 + |value|
    decreases |value|
  {
    if |value| < FULL then [ty, |value|] + value
    else [ty, FULL] + value[..FULL] + Encode(ty, value[FULL..])
  }

  function EncodeAll(items: seq<Item>): (out: bytes)
  {
    if items == [] then [] else Encode(items[0].ty, items[0].value) + EncodeAll(items[1..])
  }

  /** A chunk, and the terminator or the next chunk after a full one. */
  lemma EncodeStep(out: bytes, ty: byte, value: bytes, pos: nat)
    requires pos < |value|
    ensures |value| - pos < FULL ==> out + Encode(ty, value[pos..]) == out + [ty, |value| - pos] + value[pos..]
    ensures |value| - pos >= FULL ==>
              out + Encode(ty, value[pos..]) == out + [ty, FULL] + value[pos..pos + FULL] + Encode(ty, value[pos + FULL..])
  {
    if |value| - pos >= FULL {
      assert value[pos..][..FULL] == value[pos..pos + FULL] && value[pos..][FULL..] == value[pos + FULL..];
    }
  }

  class Writer {
    var out: bytes

    constructor ()
      ensures out == []
    {
      out := [];
    }

    /** Appends one value, chunk by chunk, with a zero-length terminator after a full last chunk. */
    method Push(ty: byte, value: bytes)
      modifies this
      ensures out == old(out) + Encode(ty, value)
    {
      if |value| == 0 {
        out := out + [ty, 0];
        return;
      }
      var pos := 0;
      var lastChunk := 0;
      while pos < |value|
        invariant 0 <= pos <= |value| && 0 <= lastChunk <= FULL
        invariant pos > 0 ==> lastChunk > 0
        invariant pos < |value| ==> pos == 0 || lastChunk == FULL
        invariant if pos < |value| || lastChunk == FULL
                  then out + Encode(ty, value[pos..]) == old(out) + Encode(ty, value)
                  else out == old(out) + Encode(ty, value)
      {
        var take := if |value| - pos < FULL then |value| - pos else FULL;
        EncodeStep(out, ty, value, pos);
        out := out + [ty, take] + value[pos..pos + take];
        pos := pos + take;
        lastChunk := take;
      }
      if lastChunk == FULL {
        assert value[pos..] == [];
        out := out + [ty, 0];
      }
    }
  }

  // ---- Reader ----

  /** Adds one parsed fragment to the items read so far. */
  function Absorb(items: seq<Item>, run: Run, ty: byte, value: bytes): seq<Item>
  {
    if ty != SEPARATOR && Continues(run, ty) && items != []
    then items[..|items| - 1] + [Item(items[|items| - 1].ty, items[|items| - 1].value + value)]
    else items + [Item(ty, value)]
  }

  function NextRun(ty: byte, len: nat): Run
  {
    if ty == SEPARATOR then NoRun else Run(ty, len == FULL)
  }

  function ParseFrom(s: bytes, items: seq<Item>, run: Run): Result<seq<Item>, Error>
    decreases |s|
  {
    if s == [] then Ok(items)
    else if |s| < 2 then Err(UnexpectedEof)
    else
      var end: nat := 2 + s[1] as int;
      if |s| < end then Err(UnexpectedEof)
      else ParseFrom(s[end..], Absorb(items, run, s[0], s[2..end]), NextRun(s[0], s[1]))
  }

  function Parse(s: bytes): Result<seq<Item>, Error>
  {
    ParseFrom(s, [], NoRun)
  }

  /** One turn of the reader at offset `pos`. */
  lemma ParseStep(s: bytes, pos: nat, items: seq<Item>, run: Run)
    requires pos < |s|
    ensures |s| < pos + 2 ==> ParseFrom(s[pos..], items, run) == Err(UnexpectedEof)
    ensures |s| >= pos + 2 ==>
              var end := pos + 2 + s[pos + 1] as int;
              ParseFrom(s[pos..], items, run) ==
              if |s| < end then Err(UnexpectedEof)
              else ParseFrom(s[end..], Absorb(items, run, s[pos], s[pos + 2..end]), NextRun(s[pos], s[pos + 1]))
  {
    if |s| >= pos + 2 {
      var len := s[pos + 1] as int;
      if |s| >= pos + 2 + len {
        SliceOfSlice(s, pos, 2, 2 + len);
      }
    }
  }

  /** The reader's loop over the input. */
  method ParseLoop(s: bytes) returns (r: Result<seq<Item>, Error>)
    ensures r == Parse(s)
  {
    var items: seq<Item> := [];
    var run := NoRun;
    var pos := 0;
    while pos < |s|
      invariant 0 <= pos <= |s|
      invariant ParseFrom(s[pos..], items, run) == Parse(s)
    {
      ParseStep(s, pos, items, run);
      var ty := s[pos];
      if pos + 1 >= |s| { return Err(UnexpectedEof); }
      var len := s[pos + 1] as int;
      var end := pos + 2 + len;
      if end > |s| { return Err(UnexpectedEof); }
      var value := s[pos + 2..end];
      pos := end;
      if ty == SEPARATOR {
        run := NoRun;
        items := items + [Item(ty, value)];
        continue;
      }
      if Continues(run, ty) && items != [] {
        var last := items[|items| - 1];
        items := items[..|items| - 1] + [Item(last.ty, last.value + value)];
      } else {
        items := items + [Item(ty, value)];
      }
      run := Run(ty, len == FULL);
    }
    assert s[pos..] == [];
    return Ok(items);
  }

  // ---- Round trip ----

  /** What the reader makes of a written item: a separator-typed value comes back one item per fragment. */
  function Shatter(item: Item): (out: seq<Item>)
    ensures |out| >= 1
    ensures |out| == 1 <==> (item.ty == SEPARATOR ==> |item.value| < FULL)
    ensures |out| == 1 ==> out == [item]
    decreases |item.value|
  {
    if item.ty != SEPARATOR || |item.value| < FULL then [item]
    else [Item(item.ty, item.value[..FULL])] + Shatter(Item(item.ty, item.value[FULL..]))
  }

  function ShatterAll(items: seq<Item>): (out: seq<Item>)
    ensures |out| >= |items|
  {
    if items == [] then [] else Shatter(items[0]) + ShatterAll(items[1..])
  }

  /** A later fragment of an open run extends the last item. */
  lemma {:induction false} ParseContinued(ty: byte, value: bytes, rest: bytes, items: seq<Item>, w: bytes)
    requires ty != SEPARATOR
    ensures ParseFrom(Encode(ty, value) + rest, items + [Item(ty, w)], Run(ty, true))
         == ParseFrom(rest, items + [Item(ty, w + value)], Run(ty, false))
    decreases |value|
  {
    var s := Encode(ty, value) + rest;
    var before := items + [Item(ty, w)];
    assert before[..|before| - 1] == items;
    if |value| < FULL {
      assert s[2..2 + s[1] as int] == value;
      assert s[2 + s[1] as int..] == rest;
    } else {
      assert s[2..2 + s[1] as int] == value[..FULL];
      assert s[2 + s[1] as int..] == Encode(ty, value[FULL..]) + rest;
      ParseContinued(ty, value[FULL..], rest, items, w + value[..FULL]);
      assert w + value[..FULL] + value[FULL..] == w + value;
    }
  }

  /** A freshly written value parses back as itself, whatever follows it. */
  lemma ParseWritten(item: Item, rest: bytes, items: seq<Item>, run: Run)
    requires item.ty != SEPARATOR && !Continues(run, item.ty)
    ensures ParseFrom(Encode(item.ty, item.value) + rest, items, run)
         == ParseFrom(rest, items + [item], Run(item.ty, false))
  {
    var s := Encode(item.ty, item.value) + rest;
    if |item.value| < FULL {
      assert s[2..2 + s[1] as int] == item.value;
      assert s[2 + s[1] as int..] == rest;
    } else {
      assert s[2..2 + s[1] as int] == item.value[..FULL];
      assert s[2 + s[1] as int..] == Encode(item.ty, item.value[FULL..]) + rest;
      ParseContinued(item.ty, item.value[FULL..], rest, items, item.value[..FULL]);
      assert item.value[..FULL] + item.value[FULL..] == item.value;
    }
  }

  lemma {:induction false} ParseSeparator(item: Item, rest: bytes, items: seq<Item>, run: Run)
    requires item.ty == SEPARATOR
    ensures ParseFrom(Encode(item.ty, item.value) + rest, items, run)
         == ParseFrom(rest, items + Shatter(item), NoRun)
    decreases |item.value|
  {
    var s := Encode(item.ty, item.value) + rest;
    if |item.value| < FULL {
      assert s[2..2 + s[1] as int] == item.value;
      assert s[2 + s[1] as int..] == rest;
    } else {
      var head, tail := Item(item.ty, item.value[..FULL]), Item(item.ty, item.value[FULL..]);
      assert s[2..2 + s[1] as int] == head.value;
      assert s[2 + s[1] as int..] == Encode(item.ty, tail.value) + rest;
      ParseSeparator(tail, rest, items + [head], NoRun);
      assert items + [head] + Shatter(tail) == items + Shatter(item);
    }
  }

  lemma {:induction false} ParseAllWritten(todo: seq<Item>, items: seq<Item>, run: Run)
    requires run.Run? ==> !run.open
    ensures ParseFrom(EncodeAll(todo), items, run) == Ok(items + ShatterAll(todo))
    decreases |todo|
  {
    if todo == [] {
      assert items + ShatterAll(todo) == items;
    } else {
      var next := ParseOneWritten(todo[0], EncodeAll(todo[1..]), items, run);
      ParseAllWritten(todo[1..], items + Shatter(todo[0]), next);
      assert items + Shatter(todo[0]) + ShatterAll(todo[1..]) == items + ShatterAll(todo);
    }
  }

  lemma ParseOneWritten(item: Item, rest: bytes, items: seq<Item>, run: Run) returns (next: Run)
    requires run.Run? ==> !run.open
    ensures next.Run? ==> !next.open
    ensures ParseFrom(Encode(item.ty, item.value) + rest, items, run)
         == ParseFrom(rest, items + Shatter(item), next)
  {
    if item.ty == SEPARATOR {
      ParseSeparator(item, rest, items, run);
      next := NoRun;
    } else {
      ParseWritten(item, rest, items, run);
      next := Run(item.ty, false);
    }
  }

  /** The values a caller may write and get back: a separator-typed one must fit in one open fragment. */
  predicate Faithful(items: seq<Item>)
  {
    forall i :: 0 <= i < |items| && items[i].ty == SEPARATOR ==> |items[i].value| < FULL
  }

  lemma {:induction false} ShatterAllIdentity(items: seq<Item>)
    ensures ShatterAll(items) == items <==> Faithful(items)
  {
    if items != [] {
      ShatterAllIdentity(items[1..]);
      assert Faithful(items) <==> (items[0].ty == SEPARATOR ==> |items[0].value| < FULL) && Faithful(items[1..]);
      if |Shatter(items[0])| == 1 {
        assert ShatterAll(items) == [items[0]] + ShatterAll(items[1..]);
        assert items == [items[0]] + items[1..];
        assert ShatterAll(items)[1..] == ShatterAll(items[1..]);
      } else {
        assert |ShatterAll(items)| > |items|;
      }
    }
  }

  /** Parsing undoes writing for exactly the item lists with no separator-typed value of 255 bytes or more. */
  lemma RoundTripExactly(items: seq<Item>)
    ensures Parse(EncodeAll(items)) == Ok(ShatterAll(items))
    ensures Parse(EncodeAll(items)) == Ok(items) <==> Faithful(items)
  {
    ParseAllWritten(items, [], NoRun);
    assert [] + ShatterAll(items) == ShatterAll(items);
    ShatterAllIdentity(items);
  }

  // ---- The wire format ----

  /** Fragments as they lie on the wire: a type, a length byte and that many bytes each. */
  function Flat(frags: seq<Item>): bytes
    requires forall i :: 0 <= i < |frags| ==> |frags[i].value| <= 255
  {
    if frags == [] then [] else [frags[0].ty, |frags[0].value|] + frags[0].value + Flat(frags[1..])
  }

  /** The fragments of one value: full ones of 255 bytes, then exactly one that is not full. */
  ghost predicate CutOf(frags: seq<Item>, ty: byte, value: bytes)
    decreases |frags|
  {
    && frags != [] && frags[0].ty == ty
    && if |frags| == 1 then frags[0].value == value && |value| < 255
       else |frags[0].value| == 255 && |value| >= 255 && frags[0].value == value[..255] && CutOf(frags[1..], ty, value[255..])
  }

  /** A value is written as its fragments. */
  lemma {:induction false} EncodeIsCut(ty: byte, value: bytes) returns (frags: seq<Item>)
    ensures CutOf(frags, ty, value) && forall i :: 0 <= i < |frags| ==> |frags[i].value| <= 255
    ensures Encode(ty, value) == Flat(frags)
    decreases |value|
  {
    if |value| < FULL {
      frags := [Item(ty, value)];
      assert frags[1..] == [] && Flat(frags) == [ty, |value|] + value + [];
    } else {
      var rest := EncodeIsCut(ty, value[FULL..]);
      frags := [Item(ty, value[..FULL])] + rest;
      assert frags[1..] == rest;
    }
  }

  /** What fragments stand for: one that follows a full one of its own type goes on with its value, separators never. */
  function Merged(frags: seq<Item>): (items: seq<Item>)
    ensures frags != [] ==> items != [] && items[0].ty == frags[0].ty
  {
    if frags == [] then []
    else
      var rest := Merged(frags[1..]);
      if GoesOn(frags)
      then [Item(frags[0].ty, frags[0].value + rest[0].value)] + rest[1..]
      else [frags[0]] + rest
  }

  /** Merged fragments added to items already read. */
  function Glued(items: seq<Item>, run: Run, frags: seq<Item>): seq<Item>
  {
    var more := Merged(frags);
    if frags != [] && frags[0].ty != 0xFF && Continues(run, frags[0].ty) && items != []
    then items[..|items| - 1] + [Item(items[|items| - 1].ty, items[|items| - 1].value + more[0].value)] + more[1..]
    else items + more
  }

  /** The next fragment goes on with this one. */
  predicate GoesOn(frags: seq<Item>)
  {
    |frags| >= 2 && frags[0].ty != 0xFF && |frags[0].value| == 255 && frags[1].ty == frags[0].ty
  }

  lemma {:induction false} GluedStep(items: seq<Item>, run: Run, frags: seq<Item>)
    requires frags != [] && (run.Run? && run.open && items != [] ==> items[|items| - 1].ty == run.ty)
    ensures Glued(Absorb(items, run, frags[0].ty, frags[0].value), NextRun(frags[0].ty, |frags[0].value|), frags[1..]) == Glued(items, run, frags)
  {
    if frags[0].ty != 0xFF && Continues(run, frags[0].ty) && items != [] {
      GluedOn(items, run, frags);
    } else {
      GluedNew(items, run, frags);
    }
  }

  lemma {:induction false} GluedOn(items: seq<Item>, run: Run, frags: seq<Item>)
    requires frags != [] && frags[0].ty != 0xFF && Continues(run, frags[0].ty) && items != [] && items[|items| - 1].ty == run.ty
    ensures Glued(Absorb(items, run, frags[0].ty, frags[0].value), NextRun(frags[0].ty, |frags[0].value|), frags[1..]) == Glued(items, run, frags)
  {
    var f, rest, front, last := frags[0], Merged(frags[1..]), items[..|items| - 1], items[|items| - 1];
    var next := Absorb(items, run, f.ty, f.value);
    assert next == front + [Item(f.ty, last.value + f.value)] && next[..|next| - 1] == front;
    if GoesOn(frags) {
      assert last.value + f.value + rest[0].value == last.value + (f.value + rest[0].value);
    }
  }

  lemma {:induction false} GluedNew(items: seq<Item>, run: Run, frags: seq<Item>)
    requires frags != [] && !(frags[0].ty != 0xFF && Continues(run, frags[0].ty) && items != [])
    ensures Glued(Absorb(items, run, frags[0].ty, frags[0].value), NextRun(frags[0].ty, |frags[0].value|), frags[1..]) == Glued(items, run, frags)
  {
    var f, rest := frags[0], Merged(frags[1..]);
    var next := items + [f];
    assert f == Item(f.ty, f.value) && next[..|next| - 1] == items;
    if GoesOn(frags) {
      assert items + [Item(f.ty, f.value + rest[0].value)] + rest[1..] == items + ([Item(f.ty, f.value + rest[0].value)] + rest[1..]);
    } else {
      assert next + rest == items + ([f] + rest);
    }
  }

  lemma {:induction false} ParseFlat(frags: seq<Item>, items: seq<Item>, run: Run)
    requires forall i :: 0 <= i < |frags| ==> |frags[i].value| <= 255
    requires run.Run? && run.open && items != [] ==> items[|items| - 1].ty == run.ty
    ensures ParseFrom(Flat(frags), items, run) == Ok(Glued(items, run, frags))
    decreases |frags|
  {
    if frags == [] {
      assert items + [] == items;
    } else {
      var f, s := frags[0], Flat(frags);
      assert s[0] == f.ty && s[1] == |f.value| && s[2..2 + |f.value|] == f.value && s[2 + |f.value|..] == Flat(frags[1..]);
      GluedStep(items, run, frags);
      ParseFlat(frags[1..], Absorb(items, run, f.ty, f.value), NextRun(f.ty, |f.value|));
    }
  }

  lemma {:induction false} ParsedIsFlat(s: bytes, items: seq<Item>, run: Run) returns (frags: seq<Item>)
    requires ParseFrom(s, items, run).Ok?
    ensures (forall i :: 0 <= i < |frags| ==> |frags[i].value| <= 255) && Flat(frags) == s
    decreases |s|
  {
    frags := [];
    if s != [] {
      var end := 2 + s[1] as int;
      var rest := ParsedIsFlat(s[end..], Absorb(items, run, s[0], s[2..end]), NextRun(s[0], s[1]));
      frags := [Item(s[0], s[2..end])] + rest;
      assert frags[1..] == rest && s == [s[0], s[1]] + s[2..end] + s[end..];
    }
  }

  /** Exactly the flat fragment lists parse, each to what its fragments stand for; anything else is cut short. */
  lemma {:induction false} ParsesExactly(s: bytes)
    ensures forall frags: seq<Item> :: (forall i :: 0 <= i < |frags| ==> |frags[i].value| <= 255) && Flat(frags) == s ==> Parse(s) == Ok(Merged(frags))
    ensures Parse(s).Err? ==> Parse(s) == Err(UnexpectedEof)
    ensures Parse(s).Ok? ==> exists frags: seq<Item> :: (forall i :: 0 <= i < |frags| ==> |frags[i].value| <= 255) && Flat(frags) == s
  {
    forall frags: seq<Item> | (forall i :: 0 <= i < |frags| ==> |frags[i].value| <= 255) && Flat(frags) == s ensures Parse(s) == Ok(Merged(frags)) {
      ParseFlat(frags, [], NoRun);
      assert [] + Merged(frags) == Merged(frags);
    }
    if Parse(s).Ok? {
      var frags := ParsedIsFlat(s, [], NoRun);
    } else {
      OnlyCutShort(s, [], NoRun);
    }
  }

  lemma {:induction false} OnlyCutShort(s: bytes, items: seq<Item>, run: Run)
    ensures ParseFrom(s, items, run).Err? ==> ParseFrom(s, items, run) == Err(UnexpectedEof)
    decreases |s|
  {
    if |s| >= 2 && |s| >= 2 + s[1] as int {
      var end := 2 + s[1] as int;
      OnlyCutShort(s[end..], Absorb(items, run, s[0], s[2..end]), NextRun(s[0], s[1]));
    }
  }

  // ---- Typed lookup (`Tlv8Map`) ----

  /** The value of the first item of type `ty`. */
  function Get(items: seq<Item>, ty: byte): (r: Option<bytes>)
    ensures r.Some? ==> Item(ty, r.value) in items
    ensures r.None? <==> forall i :: 0 <= i < |items| ==> items[i].ty != ty
  {
    if items == [] then None
    else if items[0].ty == ty then Some(items[0].value)
    else Get(items[1..], ty)
  }

  /** A lookup finds an item that no item of its type comes before. */
  lemma {:induction false} GetIsFirst(items: seq<Item>, ty: byte, i: nat)
    requires i < |items| && items[i].ty == ty && forall j :: 0 <= j < i ==> items[j].ty != ty
    ensures Get(items, ty) == Some(items[i].value)
  {
    if i > 0 {
      assert items[1..][i - 1] == items[i];
      GetIsFirst(items[1..], ty, i - 1);
    }
  }

  /** The first item of type `ty` as a `u8`; an empty value reads as zero. */
  function GetU8(items: seq<Item>, ty: byte): Result<Option<byte>, Error>
  {
    match Get(items, ty)
    case None => Ok(None)
    case Some(v) =>
      if |v| > 1 then Err(IntegerTooLarge(|v|))
      else Ok(Some(if v == [] then 0 else v[0]))
  }
}
