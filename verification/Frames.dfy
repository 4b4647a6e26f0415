/** Size-prefixed items in a byte string: packing, skipping, and sequential or threaded decoding. */
module Frames {
  import opened Bytes

  predicate Framable(item: Bytes) {
    |item| < 0x1_0000_0000
  }

  /** Four bytes of size, then the item. */
  function Frame(item: Bytes): (r: Bytes)
    ensures |r| == 4 + |item|
  {
    Fixed(|item|, 4) + item
  }

  function Pack(items: seq<Bytes>): Bytes {
    if items == [] then [] else Frame(items[0]) + Pack(items[1..])
  }

  /** The size stored at `index`; `None` when it lies outside. */
  function SizeAt(s: Bytes, index: nat): Option<nat> {
    if index + 4 <= |s| then Some(FromBigEndian(s[index..index + 4])) else None
  }

  /** The position behind the item at `index`; the item itself is not looked at. */
  function Skip(s: Bytes, index: nat): (r: Option<nat>)
    ensures r.Some? ==> r.value >= index + 4
  {
    match SizeAt(s, index)
    case None => None
    case Some(size) => Some(index + size + 4)
  }

  function SkipMany(s: Bytes, index: nat, n: nat): Option<nat>
    decreases n
  {
    if n == 0 then Some(index)
    else
      match Skip(s, index)
      case None => None
      case Some(next) => SkipMany(s, next, n - 1)
  }

  function ItemAt(s: Bytes, index: nat): Option<Bytes> {
    match SizeAt(s, index)
    case None => None
    case Some(size) => Span(s, index + 4, size)
  }

  /** How many items lie between `index` and `end`. */
  function Count(s: Bytes, index: nat, end: nat): Option<nat>
    decreases end - index
  {
    if index >= end then Some(0)
    else
      match Skip(s, index)
      case None => None
      case Some(next) =>
        match Count(s, next, end)
        case None => None
        case Some(n) => Some(n + 1)
  }

  function DecodeOne<T>(s: Bytes, index: nat, parse: Bytes -> Option<T>): Option<T> {
    match ItemAt(s, index)
    case None => None
    case Some(item) => parse(item)
  }

  /** `n` items from `index` on, decoded in order. */
  function Decode<T>(s: Bytes, index: nat, n: nat, parse: Bytes -> Option<T>): (r: Option<seq<T>>)
    ensures r.Some? ==> |r.value| == n
    decreases n
  {
    if n == 0 then Some([])
    else
      match Skip(s, index)
      case None => None
      case Some(next) => Ahead(DecodeOne(s, index, parse), Decode(s, next, n - 1, parse))
  }

  /** One item before the others, if all of them decoded. */
  function Ahead<T>(first: Option<T>, rest: Option<seq<T>>): Option<seq<T>> {
    if first.Some? && rest.Some? then Some([first.value] + rest.value) else None
  }

  function Both<T>(a: Option<seq<T>>, b: Option<seq<T>>): Option<seq<T>> {
    if a.Some? && b.Some? then Some(a.value + b.value) else None
  }

  // ---------------------------------------------------------------- splitting the work

  lemma {:induction false} SkipSplit(s: Bytes, index: nat, a: nat, b: nat)
    ensures SkipMany(s, index, a + b)
         == match SkipMany(s, index, a)
            case None => None
            case Some(middle) => SkipMany(s, middle, b)
    decreases a
  {
    if a != 0 && Skip(s, index).Some? {
      SkipSplit(s, Skip(s, index).value, a - 1, b);
    }
  }

  /** Decoding `a + b` items is decoding `a` of them and then `b` from where those end. */
  lemma {:induction false} DecodeSplit<T>(s: Bytes, index: nat, a: nat, b: nat, parse: Bytes -> Option<T>)
    ensures SkipMany(s, index, a).Some? ==>
              Decode(s, index, a + b, parse)
              == Both(Decode(s, index, a, parse), Decode(s, SkipMany(s, index, a).value, b, parse))
    ensures SkipMany(s, index, a).None? ==> Decode(s, index, a + b, parse) == None
    decreases a
  {
    if a == 0 {
      hide DecodeOne, Skip, Ahead;
      var rest := Decode(s, index, b, parse);
      assert rest.Some? ==> [] + rest.value == rest.value;
    } else if Skip(s, index).Some? {
      hide DecodeOne, Skip, Both, Ahead;
      var next := Skip(s, index).value;
      DecodeSplit(s, next, a - 1, b, parse);
      if SkipMany(s, next, a - 1).Some? {
        var first, front := DecodeOne(s, index, parse), Decode(s, next, a - 1, parse);
        BothFromFirst(first, front, Decode(s, SkipMany(s, next, a - 1).value, b, parse));
      }
    }
  }

  lemma BothFromFirst<T>(first: Option<T>, front: Option<seq<T>>, back: Option<seq<T>>)
    ensures Ahead(first, Both(front, back)) == Both(Ahead(first, front), back)
  {
    if first.Some? && front.Some? && back.Some? {
      assert [first.value] + (front.value + back.value) == ([first.value] + front.value) + back.value;
    }
  }

  // ---------------------------------------------------------------- packed items are found again

  /** The first of some packed items, inside any surroundings. */
  lemma FirstPacked(before: Bytes, item: Bytes, after: Bytes, s: Bytes)
    requires Framable(item) && s == before + (Frame(item) + after)
    ensures Skip(s, |before|) == Some(|before + Frame(item)|)
    ensures ItemAt(s, |before|) == Some(item)
    ensures s == (before + Frame(item)) + after
  {
    hide Pow256, Fixed, FromBigEndian;
    var b := |before|;
    Pow256Four();
    FromBigEndianOfFixed(|item|, 4);
    assert s[b..b + 4] == Fixed(|item|, 4);
    assert s[b + 4..b + 4 + |item|] == item;
  }

  ghost predicate AllFramable(items: seq<Bytes>) {
    forall i :: 0 <= i < |items| ==> Framable(items[i])
  }

  /** Packed items: `i` of them can be skipped, and the i-th is then at hand. */
  lemma {:induction false} PackedAt(before: Bytes, items: seq<Bytes>, after: Bytes, i: nat)
    requires AllFramable(items) && i < |items|
    ensures var s := before + (Pack(items) + after);
            && SkipMany(s, |before|, i).Some?
            && ItemAt(s, SkipMany(s, |before|, i).value) == Some(items[i])
    decreases |items|
  {
    var s := before + (Pack(items) + after);
    PackStep(items, after);
    FirstPacked(before, items[0], Pack(items[1..]) + after, s);
    if i > 0 {
      PackedAt(before + Frame(items[0]), items[1..], after, i - 1);
    }
  }

  lemma PackStep(items: seq<Bytes>, after: Bytes)
    requires items != []
    ensures Pack(items) + after == Frame(items[0]) + (Pack(items[1..]) + after)
  {
  }

  /** Packed items are counted and decoded as what they are. */
  lemma {:induction false} PackedDecodes<T>(
      before: Bytes, items: seq<Bytes>, after: Bytes, values: seq<T>, parse: Bytes -> Option<T>)
    requires AllFramable(items) && |values| == |items|
    requires forall i :: 0 <= i < |items| ==> parse(items[i]) == Some(values[i])
    ensures Decode(before + (Pack(items) + after), |before|, |items|, parse) == Some(values)
    decreases |items|
  {
    if items != [] {
      var s := before + (Pack(items) + after);
      PackStep(items, after);
      FirstPacked(before, items[0], Pack(items[1..]) + after, s);
      PackedDecodes(before + Frame(items[0]), items[1..], after, values[1..], parse);
      assert values == [values[0]] + values[1..];
    }
  }

  /** Packed items that decode to these values decode one by one. */
  lemma {:induction false} DecodedApart<T>(
      before: Bytes, items: seq<Bytes>, after: Bytes, values: seq<T>, parse: Bytes -> Option<T>, i: nat)
    requires AllFramable(items) && |values| == |items| && i < |items|
    requires Decode(before + (Pack(items) + after), |before|, |items|, parse) == Some(values)
    ensures parse(items[i]) == Some(values[i])
    decreases |items|
  {
    hide Pack, Frame, Skip, ItemAt;
    var s := before + (Pack(items) + after);
    PackStep(items, after);
    FirstPacked(before, items[0], Pack(items[1..]) + after, s);
    var rest := Decode(s, |before + Frame(items[0])|, |items| - 1, parse);
    assert values == [values[0]] + values[1..] && rest == Some(values[1..]);
    if i > 0 {
      DecodedApart(before + Frame(items[0]), items[1..], after, values[1..], parse, i - 1);
    }
  }

  lemma {:induction false} PackedCount(before: Bytes, items: seq<Bytes>, after: Bytes)
    requires AllFramable(items)
    ensures Count(before + (Pack(items) + after), |before|, |before| + |Pack(items)|) == Some(|items|)
    decreases |items|
  {
    if items != [] {
      var s := before + (Pack(items) + after);
      PackStep(items, after);
      FirstPacked(before, items[0], Pack(items[1..]) + after, s);
      PackedCount(before + Frame(items[0]), items[1..], after);
    }
  }

  // ---------------------------------------------------------------- shares

  /** What is left for the last `k` equal shares and the final one. */
  function Remaining(k: nat, share: nat, last: nat): nat {
    if k == 0 then last else share + Remaining(k - 1, share, last)
  }

  lemma {:induction false} RemainingIs(k: nat, share: nat, last: nat)
    ensures Remaining(k, share, last) == k * share + last
  {
    if k != 0 {
      RemainingIs(k - 1, share, last);
      assert k * share == (k - 1) * share + share;
    }
  }

  /** Equal shares for all threads, the remainder on top for the last one: together the whole work. */
  lemma SharesSumUp(total: nat, threads: nat)
    requires threads > 0
    ensures Remaining(threads - 1, total / threads, total / threads + total % threads) == total
  {
    var share := total / threads;
    RemainingIs(threads - 1, share, share + total % threads);
    assert threads * share == (threads - 1) * share + share;
    assert total == threads * share + total % threads;
  }

  // ---------------------------------------------------------------- the source's loops

  method CountItems(s: Bytes, start: nat, end: nat) returns (r: Option<nat>)
    ensures r == Count(s, start, end)
  {
    var count, index := 0, start;
    while index < end
      invariant match Count(s, index, end)
                case None => Count(s, start, end) == None
                case Some(n) => Count(s, start, end) == Some(count + n)
      decreases end - index
    {
      if index + 4 > |s| {
        return None;
      }
      var size := FromBigEndian(s[index..index + 4]);
      index := index + size + 4;
      count := count + 1;
    }
    r := Some(count);
  }

  lemma DecodeSingle<T>(s: Bytes, index: nat, parse: Bytes -> Option<T>)
    requires DecodeOne(s, index, parse).Some?
    ensures Skip(s, index).Some?
    ensures Decode(s, index, 1, parse) == Some([DecodeOne(s, index, parse).value])
  {
    var next := Skip(s, index).value;
    assert Decode(s, next, 0, parse) == Some([]);
    assert [DecodeOne(s, index, parse).value] + [] == [DecodeOne(s, index, parse).value];
  }

  /** One more item: where it does not decode nothing behind it does, otherwise it is appended. */
  lemma DecodeNext<T>(s: Bytes, start: nat, i: nat, n: nat, index: nat, items: seq<T>, parse: Bytes -> Option<T>)
    requires i < n && SkipMany(s, start, i) == Some(index) && Decode(s, start, i, parse) == Some(items)
    ensures match DecodeOne(s, index, parse)
            case None => Decode(s, start, n, parse) == None
            case Some(item) =>
              && Skip(s, index).Some? && SkipMany(s, start, i + 1) == Skip(s, index)
              && Decode(s, start, i + 1, parse) == Some(items + [item])
  {
    hide DecodeOne, Skip;
    SkipSplit(s, start, i, 1);
    DecodeSplit(s, start, i, 1, parse);
    DecodeSplit(s, start, i, n - i, parse);
    if DecodeOne(s, index, parse).Some? {
      DecodeSingle(s, index, parse);
      assert SkipMany(s, Skip(s, index).value, 0) == Skip(s, index);
    }
  }

  lemma NothingYet<T>(s: Bytes, start: nat, parse: Bytes -> Option<T>)
    ensures SkipMany(s, start, 0) == Some(start) && Decode(s, start, 0, parse) == Some([])
  {
  }

  /** Decoding one item after the other; also what a single thread does with its share. */
  method DecodeSequentially<T>(s: Bytes, start: nat, n: nat, parse: Bytes -> Option<T>)
    returns (r: Option<seq<T>>)
    ensures r == Decode(s, start, n, parse)
  {
    hide SkipMany, Decode;
    var items: seq<T> := [];
    var index := start;
    NothingYet(s, start, parse);
    for i := 0 to n
      invariant SkipMany(s, start, i) == Some(index)
      invariant Decode(s, start, i, parse) == Some(items)
    {
      DecodeNext(s, start, i, n, index, items, parse);
      if index + 4 > |s| {
        return None;
      }
      var size := FromBigEndian(s[index..index + 4]);
      if index + 4 + size > |s| {
        return None;
      }
      var item := parse(s[index + 4..index + 4 + size]);
      if item == None {
        return None;
      }
      items := items + [item.value];
      index := index + 4 + size;
    }
    r := Some(items);
  }

  function JoinAll<T>(futures: seq<Option<seq<T>>>): Option<seq<T>> {
    if futures == [] then Some([])
    else Both(JoinAll(futures[..|futures| - 1]), futures[|futures| - 1])
  }

  lemma NothingJoined<T>()
    ensures JoinAll<T>([]) == Some([])
  {
  }

  lemma RemainingStep(k: nat, share: nat, last: nat)
    requires k > 0
    ensures Remaining(k, share, last) == share + Remaining(k - 1, share, last)
  {
  }

  lemma RemainingLast(share: nat, last: nat)
    ensures Remaining(0, share, last) == last
  {
  }

  /** Equal shares, and the remainder on top for the last thread. */
  method ShareOut(total: nat, threads: nat) returns (share: nat, lastShare: nat)
    requires threads > 0
    ensures Remaining(threads - 1, share, lastShare) == total
  {
    share := total / threads;
    lastShare := share + total % threads;
    SharesSumUp(total, threads);
  }

  /** Moving the offset over one thread's share. */
  method SkipShare(s: Bytes, start: nat, n: nat) returns (r: Option<nat>)
    ensures r == SkipMany(s, start, n)
  {
    var index := start;
    for i := 0 to n
      invariant SkipMany(s, start, i) == Some(index)
    {
      SkipSplit(s, start, i, 1);
      SkipSplit(s, start, i, n - i);
      if index + 4 > |s| {
        return None;
      }
      index := index + FromBigEndian(s[index..index + 4]) + 4;
    }
    r := Some(index);
  }

  /**
   * Decoding with several threads gives what sequential decoding gives, for every number of threads:
   * each share starts where the shares before it end.
   */
  method DecodeInParallel<T>(s: Bytes, start: nat, total: nat, threads: nat, parse: Bytes -> Option<T>)
    returns (r: Option<seq<T>>)
    requires threads > 0
    ensures r == Decode(s, start, total, parse)
  {
    hide SkipMany, Decode, JoinAll, Remaining, Both;
    var share, lastShare := ShareOut(total, threads);
    var futures: seq<Option<seq<T>>> := [];
    var offset := start;
    ghost var done: nat := 0;
    NothingYet(s, start, parse);
    NothingJoined<T>();
    for i := 0 to threads - 1
      invariant done + Remaining(threads - 1 - i, share, lastShare) == total
      invariant SkipMany(s, start, done) == Some(offset)
      invariant JoinAll(futures) == Decode(s, start, done, parse)
    {
      RemainingStep(threads - 1 - i, share, lastShare);
      var decoded := DecodeSequentially(s, offset, share, parse);
      var next := SkipShare(s, offset, share);
      ShareDecoded(s, start, done, share, offset, futures, parse);
      futures := futures + [decoded];
      done := done + share;
      if next == None {
        DecodeSplit(s, start, done, total - done, parse);
        return None;
      }
      offset := next.value;
    }
    RemainingLast(share, lastShare);
    var last := DecodeSequentially(s, offset, lastShare, parse);
    ShareDecoded(s, start, done, lastShare, offset, futures, parse);
    futures := futures + [last];
    r := JoinFutures(futures);
  }

  /** One more share: what is joined and skipped so far grows by exactly that share. */
  lemma ShareDecoded<T>(s: Bytes, start: nat, done: nat, share: nat, offset: nat,
                        futures: seq<Option<seq<T>>>, parse: Bytes -> Option<T>)
    requires SkipMany(s, start, done) == Some(offset)
    requires JoinAll(futures) == Decode(s, start, done, parse)
    ensures SkipMany(s, start, done + share) == SkipMany(s, offset, share)
    ensures JoinAll(futures + [Decode(s, offset, share, parse)]) == Decode(s, start, done + share, parse)
  {
    SkipSplit(s, start, done, share);
    DecodeSplit(s, start, done, share, parse);
    var more := futures + [Decode(s, offset, share, parse)];
    assert more[..|more| - 1] == futures;
  }

  /** Waiting for the threads in order and appending what each decoded. */
  method JoinFutures<T>(futures: seq<Option<seq<T>>>) returns (r: Option<seq<T>>)
    ensures r == JoinAll(futures)
  {
    var items: seq<T> := [];
    for i := 0 to |futures|
      invariant JoinAll(futures[..i]) == Some(items)
    {
      assert futures[..i + 1][..i] == futures[..i];
      if futures[i] == None {
        JoinFails(futures, i);
        return None;
      }
      items := items + futures[i].value;
    }
    assert futures[..|futures|] == futures;
    r := Some(items);
  }

  lemma {:induction false} JoinFails<T>(futures: seq<Option<seq<T>>>, i: nat)
    requires i < |futures| && futures[i] == None
    ensures JoinAll(futures) == None
  {
    if i < |futures| - 1 {
      JoinFails(futures[..|futures| - 1], i);
    }
  }
}
