/**
 The binary encoding: headers, the trees they describe, and skipping trees with a flat
 counter. All functions read `data`, the payload of a frame, from a position on.
 */
module Tlv {
  import opened Bytes
  import opened Errors

  /** Lengths are machine words; the target has 32-bit ones. */
  const WORD: nat := 0x1_0000_0000

  // --------------------------------------------------------------- headers

  function RawType(b: byte): nat {
    b / 16 % 8
  }

  function TypeOf(b: byte): TlvType {
    var raw := RawType(b);
    if raw == 0 then String
    else if raw == 4 then Boolean
    else if raw == 5 then Integer
    else if raw == 6 then Unsigned
    else if raw == 7 then List
    else Other(raw)
  }

  predicate HasMore(b: byte) {
    b >= 0x80
  }

  function Nibble(b: byte): nat {
    b % 16
  }

  /** A header read successfully, a bad one, or not enough data; `next` is the position after it. */
  datatype Header = Header(ty: TlvType, len: nat, next: nat) | Bad(error: Error, next: nat) | RanOut

  function HeaderAt(data: seq<byte>, p: nat): (h: Header)
    ensures h.Header? ==> p < h.next <= |data|
    ensures h.Bad? ==> p < h.next <= |data|
  {
    if p >= |data| then RanOut
    else HeaderFrom(data, p + 1, TypeOf(data[p]), Nibble(data[p]), 1, data[p])
  }

  /** The rest of a header of which `headerLen` bytes, the last one `last`, have been read. */
  function HeaderFrom(data: seq<byte>, p: nat, ty: TlvType, len: nat, headerLen: nat, last: byte): (h: Header)
    requires p <= |data|
    ensures h.Header? ==> p <= h.next <= |data|
    ensures h.Bad? ==> p <= h.next <= |data|
    decreases |data| - p
  {
    if !HasMore(last) then Finish(p, ty, len, headerLen, TypeOf(last))
    else if p >= |data| then RanOut
    else
      var b := data[p];
      if RawType(b) != 0 then Bad(MultibyteTlvReservedType(RawType(b)), p + 1)
      else
        var longer := len * 16 % WORD + Nibble(b);
        if longer >= WORD then Bad(TlvLengthTooBig, p + 1)
        else HeaderFrom(data, p + 1, ty, longer, headerLen + 1, b)
  }

  /** What the length means depends on the type in the last header byte. */
  function Finish(p: nat, ty: TlvType, len: nat, headerLen: nat, lastTy: TlvType): Header {
    if lastTy == List then Header(ty, len, p)
    else if lastTy == String && len == 0 then Bad(EndOfSmlMessage, p)
    else if len == 0 || len < headerLen then Bad(ShortTlvLength(len), p)
    else Header(ty, len - headerLen, p)
  }

  // ----------------------------------------------------------------- trees

  datatype Tlv = Prim(ty: TlvType, payload: seq<byte>) | Node(items: seq<Tlv>)

  /**
   What stands at a position: trees, an end marker met while `owed` more trees were expected
   after it, or something else that is no tree.
   */
  datatype Parsed =
    | Trees(items: seq<Tlv>, next: nat)
    | Marker(owed: nat, next: nat)
    | Broken(error: Error, next: nat)
    | NoData

  /** `n` trees at `p`, by recursive descent into lists. */
  function ParseTrees(data: seq<byte>, p: nat, n: nat): (r: Parsed)
    requires p <= |data|
    ensures r.Trees? ==> p <= r.next <= |data| && |r.items| == n
    decreases |data| - p, n
  {
    if n == 0 then Trees([], p)
    else
      match HeaderAt(data, p)
      case RanOut => NoData
      case Bad(EndOfSmlMessage, next) => Marker(n - 1, next)
      case Bad(e, next) => Broken(e, next)
      case Header(ty, len, next) =>
        if ty == List then
          match ParseTrees(data, next, len)
          case Trees(items, q) => ConsTree(Node(items), ParseTrees(data, q, n - 1))
          case Marker(owed, q) => Marker(owed + (n - 1), q)
          case other => other
        else if next + len > |data| then NoData
        else ConsTree(Prim(ty, data[next..next + len]), ParseTrees(data, next + len, n - 1))
  }

  function ConsTree(t: Tlv, r: Parsed): Parsed {
    if r.Trees? then r.(items := [t] + r.items) else r
  }

  // -------------------------------------------------------------- skipping

  datatype Skipped = Landed(next: nat) | Stopped(error: Error, at: nat) | OutOfData

  /** Skipping `n` trees with one counter, which grows by the length of every list met. */
  function SkipFlat(data: seq<byte>, p: nat, n: nat): (r: Skipped)
    requires p <= |data|
    ensures r.Landed? ==> p <= r.next <= |data|
    ensures r.Stopped? ==> p <= r.at <= |data|
    decreases |data| - p, n
  {
    if n == 0 then Landed(p)
    else
      match HeaderAt(data, p)
      case RanOut => OutOfData
      case Bad(EndOfSmlMessage, next) => Stopped(if n == 1 then EndOfSmlMessage else MidMessageEndMarker(n - 1), next)
      case Bad(e, next) => Stopped(e, next)
      case Header(ty, len, next) =>
        if ty == List then SkipFlat(data, next, n - 1 + len)
        else if next + len > |data| then OutOfData
        else SkipFlat(data, next + len, n - 1)
  }

  /** How skipping reports what a parser by recursive descent finds. */
  function Report(r: Parsed): Skipped {
    match r
    case Trees(_, next) => Landed(next)
    case Marker(owed, next) => Stopped(if owed == 0 then EndOfSmlMessage else MidMessageEndMarker(owed), next)
    case Broken(e, next) => Stopped(e, next)
    case NoData => OutOfData
  }

  /** Skipping `a + b` trees is skipping `a` trees and then `b` more. */
  lemma {:induction false} SkipAdds(data: seq<byte>, p: nat, a: nat, b: nat)
    requires p <= |data|
    ensures SkipFlat(data, p, a).Landed? ==> SkipFlat(data, p, a + b) == SkipFlat(data, SkipFlat(data, p, a).next, b)
    decreases |data| - p, a
  {
    hide HeaderAt;
    if a > 0 && SkipFlat(data, p, a).Landed? {
      var h := HeaderAt(data, p);
      if h.ty == List {
        SkipAdds(data, h.next, a - 1 + h.len, b);
      } else {
        SkipAdds(data, h.next + h.len, a - 1, b);
      }
    }
  }

  /** One more thing the flat counter owes shifts the report of an early end marker, and nothing else. */
  function Owing(r: Parsed, more: nat): Parsed {
    if r.Marker? then r.(owed := r.owed + more) else r
  }

  /**
   With `n` trees and `more` further ones owed, the flat counter first goes through the `n`
   trees exactly as recursive descent does.
   */
  lemma {:induction false} FlatFollowsDescent(data: seq<byte>, p: nat, n: nat, more: nat)
    requires p <= |data|
    ensures var r := ParseTrees(data, p, n);
            SkipFlat(data, p, n + more) == if r.Trees? then SkipFlat(data, r.next, more) else Report(Owing(r, more))
    decreases |data| - p, n
  {
    hide HeaderAt, ParseTrees, SkipFlat, Report, Owing;
    var h := HeaderAt(data, p);
    if n > 0 && h.Header? && h.ty == List {
      FlatFollowsDescent(data, h.next, h.len, n - 1 + more);
      var r := ParseTrees(data, h.next, h.len);
      if r.Trees? {
        FlatFollowsDescent(data, r.next, n - 1, more);
      }
      FlatEntersList(data, p, n, more, h, r);
    } else {
      if n > 0 && h.Header? && h.next + h.len <= |data| {
        FlatFollowsDescent(data, h.next + h.len, n - 1, more);
      }
      FlatOutsideLists(data, p, n, more, h);
    }
  }

  lemma {:induction false} FlatOutsideLists(data: seq<byte>, p: nat, n: nat, more: nat, h: Header)
    requires p <= |data| && h == HeaderAt(data, p) && (n > 0 && h.Header? ==> h.ty != List)
    requires n > 0 && h.Header? && h.next + h.len <= |data| ==>
               var rest := ParseTrees(data, h.next + h.len, n - 1);
               SkipFlat(data, h.next + h.len, n - 1 + more)
               == if rest.Trees? then SkipFlat(data, rest.next, more) else Report(Owing(rest, more))
    ensures var all := ParseTrees(data, p, n);
            SkipFlat(data, p, n + more) == if all.Trees? then SkipFlat(data, all.next, more) else Report(Owing(all, more))
  {
    hide HeaderAt;
  }

  lemma {:induction false} FlatEntersList(data: seq<byte>, p: nat, n: nat, more: nat, h: Header, r: Parsed)
    requires p <= |data| && n > 0 && h == HeaderAt(data, p) && h.Header? && h.ty == List
    requires r == ParseTrees(data, h.next, h.len)
    requires SkipFlat(data, h.next, h.len + (n - 1 + more))
             == if r.Trees? then SkipFlat(data, r.next, n - 1 + more) else Report(Owing(r, n - 1 + more))
    requires r.Trees? ==>
               var rest := ParseTrees(data, r.next, n - 1);
               SkipFlat(data, r.next, n - 1 + more)
               == if rest.Trees? then SkipFlat(data, rest.next, more) else Report(Owing(rest, more))
    ensures var all := ParseTrees(data, p, n);
            SkipFlat(data, p, n + more) == if all.Trees? then SkipFlat(data, all.next, more) else Report(Owing(all, more))
  {
    hide HeaderAt;
    var all := ParseTrees(data, p, n);
    assert SkipFlat(data, p, n + more) == SkipFlat(data, h.next, h.len + (n - 1 + more));
    if r.Trees? {
      assert all == ConsTree(Node(r.items), ParseTrees(data, r.next, n - 1));
    }
  }

  /**
   The flat counter agrees with recursive descent at any nesting depth: it lands where the
   `n` trees end, and reports every error that descent meets. An end marker is
   `EndOfSmlMessage` exactly when it is the last thing owed on any level.
   */
  lemma {:induction false} FlatIsDescent(data: seq<byte>, p: nat, n: nat)
    requires p <= |data|
    ensures SkipFlat(data, p, n) == Report(ParseTrees(data, p, n))
  {
    hide HeaderAt;
    FlatFollowsDescent(data, p, n, 0);
  }
}
