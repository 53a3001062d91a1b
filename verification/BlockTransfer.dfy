/** Block2 responses (RFC 7959): what the accessory sends of a reply, and the controller's pull loop. */
module BlockTransfer {
  import opened Bytes

  datatype Code = Changed | BadRequest | Unauthorized | NotFound

  /** The response kept for continuations, and whom it is for. */
  datatype Cached = Cached(peer: nat, code: Code, payload: bytes)

  /** A response datagram; `block` is its Block2 option: number and more bit. */
  datatype Datagram = Datagram(code: Code, payload: bytes, block: Option<(nat, bool)>)

  /** How replies go out: the block size, if they are cut, and the sizes a Block2 option can express. */
  datatype Framing = Framing(blockwise: Option<nat>, encodes: nat -> bool)

  predicate ValidFraming(f: Framing)
  {
    f.blockwise.Some? ==> f.blockwise.value >= 16
  }

  function Min(a: nat, b: nat): nat
  {
    if a < b then a else b
  }

  function BlockEnd(full: bytes, num: nat, size: nat): (end: nat)
    ensures end <= |full|
  {
    Min(Min(num * size, |full|) + size, |full|)
  }

  predicate More(full: bytes, num: nat, size: nat)
  {
    BlockEnd(full, num, size) < |full|
  }

  /** A block; an option that cannot be expressed is left off. */
  function BlockAt(encodes: nat -> bool, code: Code, full: bytes, num: nat, size: nat): Datagram
  {
    var start := Min(num * size, |full|);
    Datagram(code, full[start..BlockEnd(full, num, size)], if encodes(size) then Some((num, More(full, num, size))) else None)
  }

  /** The first answer to a request: the whole payload, or block 0 with the rest cached. */
  function Respond(f: Framing, cache: Option<Cached>, peer: nat, code: Code, payload: bytes): (Option<Cached>, Datagram)
  {
    if f.blockwise.Some? && |payload| > f.blockwise.value then
      (if More(payload, 0, f.blockwise.value) then Some(Cached(peer, code, payload)) else None,
       BlockAt(f.encodes, code, payload, 0, f.blockwise.value))
    else (cache, Datagram(code, payload, None))
  }

  /** A continuation: a block of what is cached for this peer, or no answer. The cache goes with the last block. */
  function Continue(f: Framing, cache: Option<Cached>, peer: nat, num: nat): (Option<Cached>, Option<Datagram>)
  {
    if f.blockwise.None? || cache.None? || cache.value.peer != peer then (cache, None)
    else
      (if More(cache.value.payload, num, f.blockwise.value) then cache else None,
       Some(BlockAt(f.encodes, cache.value.code, cache.value.payload, num, f.blockwise.value)))
  }

  // ---- The accessory's side, in place ----

  class BlockServer {
    const framing: Framing
    var cache: Option<Cached>

    constructor (framing: Framing)
      requires ValidFraming(framing)
      ensures this.framing == framing && cache == None
    {
      this.framing := framing;
      cache := None;
    }

    method SendBlock(code: Code, full: bytes, num: nat, size: nat) returns (d: Datagram)
      modifies this`cache
      ensures d == BlockAt(framing.encodes, code, full, num, size)
      ensures cache == if More(full, num, size) then old(cache) else None
    {
      var start := Min(num * size, |full|);
      var end := Min(start + size, |full|);
      var more := end < |full|;
      d := Datagram(code, full[start..end], None);
      if framing.encodes(size) { d := d.(block := Some((num, more))); }
      if !more { cache := None; }
    }

    method SendResponse(peer: nat, code: Code, payload: bytes) returns (d: Datagram)
      modifies this`cache
      ensures (cache, d) == Respond(framing, old(cache), peer, code, payload)
    {
      if framing.blockwise.Some? && |payload| > framing.blockwise.value {
        cache := Some(Cached(peer, code, payload));
        d := SendBlock(code, payload, 0, framing.blockwise.value);
      } else {
        d := Datagram(code, payload, None);
      }
    }

    method ServeCachedBlock(peer: nat, num: nat) returns (d: Option<Datagram>)
      modifies this`cache
      ensures (cache, d) == Continue(framing, old(cache), peer, num)
    {
      if framing.blockwise.None? || cache.None? || cache.value.peer != peer { return None; }
      var block := SendBlock(cache.value.code, cache.value.payload, num, framing.blockwise.value);
      d := Some(block);
    }
  }

  // ---- The controller's pull loop ----

  const MAX_BLOCKS := 1024

  datatype Outcome = Complete(code: Code, payload: bytes) | NoAnswer | TooMany

  /** Where a pull leaves the other end, after how many continuations, and what it has. */
  datatype Pulled<S> = Pulled(state: S, asked: nat, outcome: Outcome)

  /** Continuation `k` for block `num`, from the other end in some state: its next state and its answer. */
  type Asker<!S> = (S, nat, nat) -> (S, Option<Datagram>)

  /** Pull the blocks after number `num`, `fetched` of them being here already. */
  function PullFrom<S>(ask: Asker<S>, s: S, num: nat, full: bytes, fetched: nat): Pulled<S>
    requires fetched >= 1
    decreases MAX_BLOCKS - fetched
  {
    if fetched >= MAX_BLOCKS then Pulled(s, fetched - 1, TooMany)
    else
      match ask(s, fetched, num + 1)
      case (next, None) => Pulled(next, fetched, NoAnswer)
      case (next, Some(d)) =>
        if d.block.None? || !d.block.value.1 then Pulled(next, fetched, Complete(d.code, full + d.payload))
        else PullFrom(ask, next, d.block.value.0, full + d.payload, fetched + 1)
  }

  function Pull<S>(ask: Asker<S>, s: S, first: Datagram): Pulled<S>
  {
    if first.block.None? || !first.block.value.1 then Pulled(s, 0, Complete(first.code, first.payload))
    else PullFrom(ask, s, first.block.value.0, first.payload, 1)
  }

  // ---- A pull yields the reply or nothing ----

  /** In a state that `holds`, a continuation is answered with a block of this reply or not at all. */
  ghost predicate Serves<S(!new)>(ask: Asker<S>, holds: S -> bool, encodes: nat -> bool, code: Code, full: bytes, size: nat)
  {
    forall s: S, k: nat, num: nat :: holds(s) && num >= 1 ==>
      && holds(ask(s, k, num).0)
      && (ask(s, k, num).1.Some? ==> ask(s, k, num).1.value == BlockAt(encodes, code, full, num, size))
  }

  /** Block `num + 1` goes on where the first `num + 1` blocks stopped. */
  lemma NextBlock(encodes: nat -> bool, code: Code, full: bytes, num: nat, size: nat)
    requires encodes(size) && (num + 1) * size < |full|
    ensures var d := BlockAt(encodes, code, full, num + 1, size);
            && d.code == code && d.block == Some((num + 1, (num + 2) * size < |full|))
            && full[..(num + 1) * size] + d.payload == full[..Min((num + 2) * size, |full|)]
  {
    assert (num + 2) * size == (num + 1) * size + size;
  }

  lemma {:induction false} PullFromIsExact<S(!new)>(ask: Asker<S>, holds: S -> bool, encodes: nat -> bool, code: Code, full: bytes, size: nat, s: S, num: nat)
    requires encodes(size) && (num + 1) * size < |full| && num + 1 <= MAX_BLOCKS
    requires Serves(ask, holds, encodes, code, full, size) && holds(s)
    ensures var p := PullFrom(ask, s, num, full[..(num + 1) * size], num + 1);
            holds(p.state) && (p.outcome.Complete? ==> p.outcome == Complete(code, full))
    decreases MAX_BLOCKS - num
  {
    if num + 1 < MAX_BLOCKS {
      NextBlock(encodes, code, full, num, size);
      var (next, d) := ask(s, num + 1, num + 1);
      if (num + 2) * size < |full| {
        if d.Some? { PullFromIsExact(ask, holds, encodes, code, full, size, next, num + 1); }
      } else {
        assert full[..|full|] == full;
      }
    }
  }

  /** The reply goes out whole, or in blocks whose option can be expressed. */
  predicate Sound(f: Framing, payload: bytes)
  {
    f.blockwise.None? || |payload| <= f.blockwise.value || f.encodes(f.blockwise.value)
  }

  /**
   * Whatever else happens between the datagrams, as long as continuations are answered from this reply or not
   * at all: a pull that completes has exactly the reply, if and only if the reply fits one datagram or the
   * block size can be expressed. Otherwise it completes at once with the first block alone.
   */
  lemma PullIsExactWhenSound<S(!new)>(f: Framing, cache: Option<Cached>, me: nat, code: Code, payload: bytes, ask: Asker<S>, holds: S -> bool, s: S)
    requires ValidFraming(f) && holds(s)
    requires f.blockwise.Some? ==> Serves(ask, holds, f.encodes, code, payload, f.blockwise.value)
    ensures var p := Pull(ask, s, Respond(f, cache, me, code, payload).1);
            && (Sound(f, payload) ==> p.outcome.Complete? ==> p.outcome == Complete(code, payload))
            && (!Sound(f, payload) ==> p == Pulled(s, 0, Complete(code, payload[..f.blockwise.value])) && p.outcome.payload != payload)
  {
    if f.blockwise.Some? && |payload| > f.blockwise.value && f.encodes(f.blockwise.value) {
      var size := f.blockwise.value;
      assert Respond(f, cache, me, code, payload).1.payload == payload[..(0 + 1) * size];
      PullFromIsExact(ask, holds, f.encodes, code, payload, size, s, 0);
    }
  }

  /** A continuation is always answered, with the block it asks for. */
  ghost predicate Answers<S(!new)>(ask: Asker<S>, holds: S -> bool, encodes: nat -> bool, code: Code, full: bytes, size: nat)
  {
    forall s: S, k: nat, num: nat :: holds(s) && num >= 1 && num * size < |full| ==>
      && ask(s, k, num).1 == Some(BlockAt(encodes, code, full, num, size))
      && (More(full, num, size) ==> holds(ask(s, k, num).0))
  }

  lemma {:induction false} AnsweredFrom<S(!new)>(ask: Asker<S>, holds: S -> bool, encodes: nat -> bool, code: Code, full: bytes, size: nat, s: S, num: nat)
    requires encodes(size) && (num + 1) * size < |full| && num + 1 <= MAX_BLOCKS
    requires Answers(ask, holds, encodes, code, full, size) && holds(s)
    ensures PullFrom(ask, s, num, full[..(num + 1) * size], num + 1).outcome ==
            if MAX_BLOCKS * size >= |full| then Complete(code, full) else TooMany
    decreases MAX_BLOCKS - num
  {
    if num + 1 < MAX_BLOCKS {
      NextBlock(encodes, code, full, num, size);
      var (next, d) := ask(s, num + 1, num + 1);
      assert d == Some(BlockAt(encodes, code, full, num + 1, size));
      if (num + 2) * size < |full| {
        AnsweredFrom(ask, holds, encodes, code, full, size, next, num + 1);
      } else {
        assert full[..|full|] == full;
        MonotoneBlocks(num + 2, MAX_BLOCKS, size);
      }
    }
  }

  lemma MonotoneBlocks(a: nat, b: nat, size: nat)
    requires a <= b
    ensures a * size <= b * size
  {
  }

  /** With every continuation answered, the outcome is exactly one of four. */
  lemma AnsweredPull<S(!new)>(f: Framing, cache: Option<Cached>, me: nat, code: Code, payload: bytes, ask: Asker<S>, holds: S -> bool, s: S)
    requires ValidFraming(f) && holds(s)
    requires f.blockwise.Some? ==> Answers(ask, holds, f.encodes, code, payload, f.blockwise.value)
    ensures Pull(ask, s, Respond(f, cache, me, code, payload).1).outcome ==
            if f.blockwise.None? || |payload| <= f.blockwise.value then Complete(code, payload)
            else if !f.encodes(f.blockwise.value) then Complete(code, payload[..f.blockwise.value])
            else if |payload| <= 1024 * f.blockwise.value then Complete(code, payload)
            else TooMany
  {
    if f.blockwise.Some? && |payload| > f.blockwise.value && f.encodes(f.blockwise.value) {
      var size := f.blockwise.value;
      assert Respond(f, cache, me, code, payload).1.payload == payload[..(0 + 1) * size];
      AnsweredFrom(ask, holds, f.encodes, code, payload, size, s, 0);
    }
  }

  // ---- What a pull does to the rest of the other end ----

  /** The first `asked` continuations, as they act on a part of the state. */
  function Acts<C>(act: (C, nat) -> C, c: C, from: nat, asked: nat): C
    decreases asked - from
  {
    if from > asked then c else Acts(act, act(c, from), from + 1, asked)
  }

  /** If each continuation acts on a part of the state without regard to the rest or to the block it asks for, so does the pull. */
  lemma {:induction false} PullActs<S(!new), C(!new)>(ask: Asker<S>, part: S -> C, act: (C, nat) -> C, s: S, num: nat, full: bytes, fetched: nat)
    requires fetched >= 1 && forall t: S, k: nat, n: nat :: n >= 1 ==> part(ask(t, k, n).0) == act(part(t), k)
    ensures var p := PullFrom(ask, s, num, full, fetched);
            p.asked >= fetched - 1 && part(p.state) == Acts(act, part(s), fetched, p.asked)
    decreases MAX_BLOCKS - fetched
  {
    if fetched < MAX_BLOCKS {
      var (next, d) := ask(s, fetched, num + 1);
      assert part(next) == act(part(s), fetched);
      if d.Some? && d.value.block.Some? && d.value.block.value.1 {
        PullActs(ask, part, act, next, d.value.block.value.0, full + d.value.payload, fetched + 1);
      }
    }
  }

  // ---- The cache ----

  /** A reply that fits one datagram goes out whole and unmarked and touches no cached one; a longer one takes the cache. */
  lemma {:induction false} RespondsExactly(f: Framing, cache: Option<Cached>, peer: nat, code: Code, payload: bytes)
    requires ValidFraming(f)
    ensures (f.blockwise.None? || |payload| <= f.blockwise.value) ==> Respond(f, cache, peer, code, payload) == (cache, Datagram(code, payload, None))
    ensures f.blockwise.Some? && |payload| > f.blockwise.value ==>
              Respond(f, cache, peer, code, payload).0 == Some(Cached(peer, code, payload)) &&
              Respond(f, cache, peer, code, payload).1.payload == payload[..f.blockwise.value]
  {
  }

  /** A continuation is answered exactly for the peer whose reply is cached, and the cache goes with its last block. */
  lemma {:induction false} ContinuesExactly(f: Framing, cache: Option<Cached>, peer: nat, num: nat)
    ensures var (next, out) := Continue(f, cache, peer, num);
            && (out.Some? <==> f.blockwise.Some? && cache.Some? && cache.value.peer == peer)
            && (next != cache <==> out.Some? && num * f.blockwise.value + f.blockwise.value >= |cache.value.payload|)
            && (next != cache ==> next == None)
  {
  }
}
