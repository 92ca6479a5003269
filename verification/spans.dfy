/** Small shared datatypes. */
module Common {

  /** Rust's `Option`: `None` is also how this model writes a panic where the
      source unwraps or asserts. */
  datatype Option<T> = None | Some(value: T)
}

/**
  Source spans (`sway-types/src/span.rs`): an immutable reference to the byte
  range `[start, end)` of a shared source buffer, optionally tagged with the
  path of the file it came from. Characters stand for bytes: the UTF-8
  char-boundary checks of the underlying span constructor are not modelled.
 */
module Spans {
  import opened Common

  datatype RawSpan = RawSpan(src: string, start: nat, end: nat, path: Option<string>)

  /** A span is always in bounds: `start <= end <= |src|`. */
  type Span = s: RawSpan | s.start <= s.end <= |s.src| witness RawSpan("", 0, 0, None)

  /** `Span::new`: `None` for an out-of-bounds or reversed range, never a panic. */
  function New(src: string, start: nat, end: nat, path: Option<string>): (r: Option<Span>)
    ensures r.Some? <==> start <= end <= |src|
    ensures r.Some? ==> r.value.src == src && r.value.start == start
                        && r.value.end == end && r.value.path == path
  {
    if start <= end <= |src| then
      var s: Span := RawSpan(src, start, end, path);
      Some(s)
    else None
  }

  /** The text the span covers (`as_str`). */
  function AsStr(s: Span): (t: string)
    ensures |t| == s.end - s.start
  {
    s.src[s.start..s.end]
  }

  /** Every span is what `New` builds from its own accessors. */
  lemma NewRoundTrip(s: Span)
    ensures New(s.src, s.start, s.end, s.path) == Some(s)
  {
  }

  /** `outer` covers every byte of `inner`, in the same buffer. */
  predicate Contains(outer: Span, inner: Span)
  {
    outer.src == inner.src && outer.start <= inner.start && inner.end <= outer.end
  }

  // ---------------------------------------------------------------- trim

  /** ASCII whitespace; the other Unicode white-space characters are not modelled. */
  predicate IsWhitespace(c: char)
  {
    c == ' ' || c == '\t' || c == '\n' || c == '\r' || c == '\U{000B}' || c == '\U{000C}'
  }

  predicate AllWhitespace(t: string)
  {
    forall i :: 0 <= i < |t| ==> IsWhitespace(t[i])
  }

  /** Length of the longest whitespace prefix of `t`. */
  function LeadingWs(t: string): (n: nat)
    ensures n <= |t|
    ensures forall i :: 0 <= i < n ==> IsWhitespace(t[i])
    ensures n < |t| ==> !IsWhitespace(t[n])
  {
    if |t| == 0 || !IsWhitespace(t[0]) then 0 else 1 + LeadingWs(t[1..])
  }

  /** Length of the longest whitespace suffix of `t`. */
  function TrailingWs(t: string): (n: nat)
    ensures n <= |t|
    ensures forall i :: |t| - n <= i < |t| ==> IsWhitespace(t[i])
    ensures n < |t| ==> !IsWhitespace(t[|t| - 1 - n])
  {
    if |t| == 0 || !IsWhitespace(t[|t| - 1]) then 0 else 1 + TrailingWs(t[..|t| - 1])
  }

  /** `str::trim_start` and `str::trim_end`. */
  function TrimStart(t: string): string { t[LeadingWs(t)..] }

  function TrimEnd(t: string): string { t[..|t| - TrailingWs(t)] }

  /** An all-whitespace text is its own whitespace prefix and suffix. */
  lemma AllWhitespaceLengths(t: string)
    requires AllWhitespace(t)
    ensures LeadingWs(t) == |t| && TrailingWs(t) == |t|
  {
  }

  /**
    Outside the all-whitespace case the two deltas never overlap, and what is
    left between them starts and ends with a non-whitespace character.
   */
  lemma WhitespaceDeltasFit(t: string)
    requires !AllWhitespace(t)
    ensures LeadingWs(t) + TrailingWs(t) < |t|
    ensures var u := t[LeadingWs(t)..|t| - TrailingWs(t)];
            LeadingWs(u) == 0 && TrailingWs(u) == 0
  {
    var k :| 0 <= k < |t| && !IsWhitespace(t[k]);
    assert LeadingWs(t) <= k;
    assert TrailingWs(t) <= |t| - 1 - k;
    var u := t[LeadingWs(t)..|t| - TrailingWs(t)];
    assert u[0] == t[LeadingWs(t)];
    assert u[|u| - 1] == t[|t| - 1 - TrailingWs(t)];
  }

  /** Moving both ends of a span inwards takes the matching slice of its text. */
  lemma ShrunkText(s: Span, lead: nat, trail: nat)
    requires lead + trail <= s.end - s.start
    ensures var r: Span := RawSpan(s.src, s.start + lead, s.end - trail, s.path);
            AsStr(r) == AsStr(s)[lead..|AsStr(s)| - trail]
  {
  }

  lemma TrimOutcome(s: Span, lead: nat, trail: nat)
    requires lead == LeadingWs(AsStr(s)) && trail == TrailingWs(AsStr(s))
    ensures var t := AsStr(s);
            var r := New(s.src, s.start + lead, s.end - trail, s.path);
            && (r.None? <==> |t| > 0 && AllWhitespace(t))
            && (r.Some? ==> AsStr(r.value) == t[lead..|t| - trail]
                            && LeadingWs(AsStr(r.value)) == 0 && TrailingWs(AsStr(r.value)) == 0)
  {
    var t := AsStr(s);
    if AllWhitespace(t) {
      AllWhitespaceLengths(t);
    } else {
      WhitespaceDeltasFit(t);
      ShrunkText(s, lead, trail);
    }
  }

  /**
    `Span::trim`: moves `start` forward past the leading whitespace and `end`
    back before the trailing whitespace, keeping buffer and path. The final
    `unwrap` panics (`None` here) exactly for a non-empty all-whitespace
    text, where the moved start passes the moved end.
   */
  function Trim(s: Span): (r: Option<Span>)
    ensures r.None? <==> |AsStr(s)| > 0 && AllWhitespace(AsStr(s))
    ensures r.Some? ==>
              var t := AsStr(s);
              && r.value.src == s.src && r.value.path == s.path
              && r.value.start == s.start + LeadingWs(t)
              && r.value.end == s.end - TrailingWs(t)
              && AsStr(r.value) == t[LeadingWs(t)..|t| - TrailingWs(t)]
              && LeadingWs(AsStr(r.value)) == 0 && TrailingWs(AsStr(r.value)) == 0
  {
    var t := AsStr(s);
    var startDelta := |t| - |TrimStart(t)|;
    var endDelta := |t| - |TrimEnd(t)|;
    assert startDelta == LeadingWs(t) && endDelta == TrailingWs(t);
    TrimOutcome(s, startDelta, endDelta);
    New(s.src, s.start + startDelta, s.end - endDelta, s.path)
  }

  /** Trimming a trimmed span changes nothing. */
  lemma TrimIdempotent(s: Span)
    requires Trim(s).Some?
    ensures Trim(Trim(s).value) == Trim(s)
  {
  }

  // ---------------------------------------------------------------- join

  /**
    `join_spans`: a first span whose text is the sentinel "core" yields the
    second span unchanged, with no same-file check. Otherwise both spans must
    share buffer and path (`None` models the assertion panic), and the result
    runs from `s1.start` to `s2.end` when `s1.start < s2.end`, else from
    `s2.start` to `s1.end`, carrying `s1`'s path. This is not a union in
    general; see `JoinNestedIsNotUnion`.
   */
  function JoinSpans(s1: Span, s2: Span): (r: Option<Span>)
    ensures AsStr(s1) == "core" ==> r == Some(s2)
    ensures r.None? <==> AsStr(s1) != "core" && (s1.src != s2.src || s1.path != s2.path)
    ensures r.Some? && AsStr(s1) != "core" ==>
              && r.value.src == s1.src && r.value.path == s1.path
              && (s1.start < s2.end ==> r.value.start == s1.start && r.value.end == s2.end)
              && (s2.end <= s1.start ==> r.value.start == s2.start && r.value.end == s1.end)
  {
    if AsStr(s1) == "core" then Some(s2)
    else if s1.src != s2.src || s1.path != s2.path then None
    else
      var joined: Span :=
        if s1.start < s2.end then RawSpan(s1.src, s1.start, s2.end, s1.path)
        else RawSpan(s1.src, s2.start, s1.end, s1.path);
      Some(joined)
  }

  /**
    The smallest span covering both arguments. The new parser's own
    `Span::join` is not part of this model; it is taken to compute this.
   */
  function Cover(a: Span, b: Span): (r: Span)
    requires a.src == b.src
    ensures r.path == a.path
    ensures Contains(r, a) && Contains(r, b)
    ensures r.start == a.start || r.start == b.start
    ensures r.end == a.end || r.end == b.end
  {
    RawSpan(a.src, if a.start <= b.start then a.start else b.start,
            if a.end <= b.end then b.end else a.end, a.path)
  }

  /**
    For spans of one file that do not overlap, in either order, `join_spans`
    is the smallest span covering both: the case the function is written for.
   */
  lemma JoinDisjointIsCover(s1: Span, s2: Span)
    requires AsStr(s1) != "core"
    requires s1.src == s2.src && s1.path == s2.path
    requires s1.end <= s2.start || s2.end <= s1.start
    ensures JoinSpans(s1, s2) == Some(Cover(s1, s2))
  {
    if s1.end <= s2.start && s2.end <= s1.start {
      assert s1.start == s1.end == s2.start == s2.end;
    }
  }

  /** For such spans the order of the arguments does not matter. */
  lemma JoinDisjointSymmetric(s1: Span, s2: Span)
    requires AsStr(s1) != "core" && AsStr(s2) != "core"
    requires s1.src == s2.src && s1.path == s2.path
    requires s1.end <= s2.start
    ensures JoinSpans(s1, s2) == JoinSpans(s2, s1)
  {
    JoinDisjointIsCover(s1, s2);
    JoinDisjointIsCover(s2, s1);
  }

  /** A span nested strictly inside another is not covered by their join. */
  lemma JoinNestedIsNotUnion()
    ensures var outer := RawSpan("abcdef", 0, 5, None);
            var inner := RawSpan("abcdef", 1, 2, None);
            && JoinSpans(outer, inner).Some?
            && JoinSpans(outer, inner).value == RawSpan("abcdef", 0, 2, None)
            && !Contains(JoinSpans(outer, inner).value, outer)
  {
    var outer: Span := RawSpan("abcdef", 0, 5, None);
    assert AsStr(outer) == "abcde";
  }
}
