/** Splitting paths into URI-Path options, and how much room they take (net/golioth/coap_utils.c). */
module UriPath {
  import opened Common
  import opened CoapMessage

  const SLASH: byte := 47
  const URI_PATH: nat := 11

  // ----- The path in memory

  function LeadingSlashes(s: seq<byte>): (n: nat)
    ensures n <= |s|
    ensures forall i :: 0 <= i < n ==> s[i] == SLASH
    ensures n < |s| ==> s[n] != SLASH
  {
    if s == [] || s[0] != SLASH then 0 else 1 + LeadingSlashes(s[1..])
  }

  /** The length of a C string, the bytes before its terminator. */
  function StrLen(mem: seq<byte>): (n: nat)
    requires 0 in mem
    ensures n < |mem| && mem[n] == 0 && 0 !in mem[..n]
  {
    if mem[0] == 0 then 0 else
      assert mem == [mem[0]] + mem[1..];
      var n := 1 + StrLen(mem[1..]);
      assert mem[..n] == [mem[0]] + mem[1..][..n - 1];
      n
  }

  /** The text a range of memory holds: up to its end or the terminator, without the slashes it starts with. Those are
      dropped without a look at where the range ends. */
  function PathText(mem: seq<byte>, end: nat): seq<byte>
    requires 0 in mem
  {
    var n := StrLen(mem);
    var from := LeadingSlashes(mem[..n]);
    if end <= from then [] else mem[from..Min(end, n)]
  }

  // ----- Segments

  function FirstSlash(t: seq<byte>): (k: nat)
    ensures k <= |t| && SLASH !in t[..k]
    ensures k < |t| ==> t[k] == SLASH
  {
    if t == [] || t[0] == SLASH then 0 else
      var k := 1 + FirstSlash(t[1..]);
      assert t[..k] == [t[0]] + t[1..][..k - 1];
      k
  }

  /** The pieces between slashes; an empty last one is not counted. */
  function Segments(t: seq<byte>): seq<seq<byte>>
  {
    if t == [] then []
    else if FirstSlash(t) == |t| then [t]
    else [t[..FirstSlash(t)]] + Segments(t[FirstSlash(t) + 1..])
  }

  function Join(segments: seq<seq<byte>>): seq<byte>
  {
    if segments == [] then []
    else if |segments| == 1 then segments[0]
    else segments[0] + [SLASH] + Join(segments[1..])
  }

  function DropLastSlash(t: seq<byte>): seq<byte>
  {
    if t != [] && t[|t| - 1] == SLASH then t[..|t| - 1] else t
  }

  lemma FirstSlashIs(t: seq<byte>, k: nat)
    requires k <= |t| && SLASH !in t[..k] && (k < |t| ==> t[k] == SLASH)
    ensures FirstSlash(t) == k
  {
    var f := FirstSlash(t);
    assert forall i :: 0 <= i < k ==> t[i] in t[..k];
    assert forall i :: 0 <= i < f ==> t[i] in t[..f];
  }

  lemma SegmentsStep(g: seq<byte>, rest: seq<byte>)
    requires SLASH !in g
    ensures Segments(g + [SLASH] + rest) == [g] + Segments(rest)
  {
    var t := g + [SLASH] + rest;
    assert t[..|g|] == g && t[|g| + 1..] == rest;
    FirstSlashIs(t, |g|);
  }

  lemma NoSlash(g: seq<byte>)
    requires SLASH !in g
    ensures Segments(g) == if g == [] then [] else [g]
  {
    assert g[..|g|] == g;
    FirstSlashIs(g, |g|);
  }

  /** Joining the segments with slashes gives the text back, but for one slash at its end; no segment holds a slash. */
  lemma {:induction false} JoinSegments(t: seq<byte>)
    ensures Join(Segments(t)) == DropLastSlash(t)
    ensures forall g :: g in Segments(t) ==> SLASH !in g
    decreases |t|
  {
    var k := FirstSlash(t);
    if SLASH !in t {
      NoSlash(t);
    } else {
      var g, rest := t[..k], t[k + 1..];
      assert k < |t|;
      assert t == g + [SLASH] + rest;
      JoinSegments(rest);
      SegmentsStep(g, rest);
      JoinStep(g, rest);
    }
  }

  lemma JoinCons(g: seq<byte>, more: seq<seq<byte>>)
    ensures Join([g] + more) == if more == [] then g else g + [SLASH] + Join(more)
  {
    assert ([g] + more)[1..] == more;
  }

  lemma JoinStep(g: seq<byte>, rest: seq<byte>)
    requires Join(Segments(rest)) == DropLastSlash(rest)
    ensures Join([g] + Segments(rest)) == DropLastSlash(g + [SLASH] + rest)
  {
    hide Segments, Join;
    JoinCons(g, Segments(rest));
    if rest == [] {
      NoSlash([]);
      assert DropLastSlash(g + [SLASH] + rest) == g;
    } else {
      SegmentsOfText(rest);
      assert DropLastSlash(g + [SLASH] + rest) == g + [SLASH] + DropLastSlash(rest);
    }
  }

  lemma SegmentsOfText(t: seq<byte>)
    requires t != []
    ensures Segments(t) != []
  {
  }

  /** Every list of segments without slashes is what splitting makes of their join with a slash after it, and of the
      bare join when the last one is not empty. */
  lemma {:induction false} SegmentsJoin(segments: seq<seq<byte>>)
    requires segments != [] && forall g :: g in segments ==> SLASH !in g
    ensures Segments(Join(segments) + [SLASH]) == segments
    ensures Segments(Join(segments)) == segments <==> segments[|segments| - 1] != []
  {
    hide *;
    var g, more := segments[0], segments[1..];
    assert segments == [g] + more;
    JoinCons(g, more);
    if more == [] {
      assert g + [SLASH] == g + [SLASH] + [];
      SegmentsStep(g, []);
      NoSlash([]);
      NoSlash(g);
    } else {
      var joined := Join(more);
      assert segments[|segments| - 1] == more[|more| - 1];
      SegmentsJoin(more);
      SegmentsStep(g, joined);
      SegmentsStep(g, joined + [SLASH]);
      assert g + [SLASH] + joined + [SLASH] == g + [SLASH] + (joined + [SLASH]);
      assert ([g] + Segments(joined))[1..] == Segments(joined);
    }
  }

  /** A range of memory, up to its end or the terminator: what follows its leading slashes comes back from the segments, but for one
      slash at the end. */
  lemma PathRoundTrip(mem: seq<byte>, end: nat)
    requires 0 in mem
    ensures var n := Min(end, StrLen(mem));
      var text := PathText(mem, end);
      && |text| <= n && mem[..n] == mem[..n - |text|] + text && (forall i :: 0 <= i < n - |text| ==> mem[i] == SLASH)
      && (text != [] ==> text[0] != SLASH)
      && Join(Segments(text)) == DropLastSlash(text)
      && forall g :: g in Segments(text) ==> SLASH !in g
  {
    hide *;
    JoinSegments(PathText(mem, end));
    PathParts(mem, end);
  }

  lemma PathParts(mem: seq<byte>, end: nat)
    requires 0 in mem
    ensures var n := Min(end, StrLen(mem));
      var text := PathText(mem, end);
      && |text| <= n && mem[..n] == mem[..n - |text|] + text && (forall i :: 0 <= i < n - |text| ==> mem[i] == SLASH)
      && (text != [] ==> text[0] != SLASH)
  {
    var len := StrLen(mem);
    var k := LeadingSlashes(mem[..len]);
    var n := if end <= len then end else len;
    assert forall i :: 0 <= i < k ==> mem[i] == mem[..len][i];
    if k < end {
      assert PathText(mem, end) == mem[k..n];
      assert k < len ==> mem[k] == mem[..len][k];
      hide *;
      InTwo(mem, k, n);
    } else {
      assert mem[..n] + [] == mem[..n];
    }
  }

  lemma InTwo(s: seq<byte>, k: nat, n: nat)
    requires k <= n <= |s|
    ensures s[..n] == s[..k] + s[k..n]
  {
  }

  // ----- Path vectors

  function UriOptions(segments: seq<seq<byte>>): (options: seq<Opt>)
    ensures |options| == |segments|
  {
    seq(|segments|, i requires 0 <= i < |segments| => Opt(URI_PATH, segments[i]))
  }

  /** The segments of the components in turn. */
  function PathvSegments(pathv: seq<seq<byte>>): seq<seq<byte>>
    requires forall c :: c in pathv ==> 0 in c
  {
    if pathv == [] then [] else Segments(PathText(pathv[0], |pathv[0]|)) + PathvSegments(pathv[1..])
  }

  /** `coap_pathv_estimate_alloc_len`. */
  function Estimate(pathv: seq<seq<byte>>): nat
    requires forall c :: c in pathv ==> 0 in c
  {
    if pathv == [] then 0
    else Estimate(pathv[..|pathv| - 1]) + ComponentEstimate(StrLen(pathv[|pathv| - 1]))
  }

  function ComponentEstimate(len: nat): nat
  {
    len + len / 13 + 1
  }

  // ----- The estimate is enough

  /** What a URI-Path option takes after another option that is at most 12 below. */
  function SegmentCost(len: nat): nat
  {
    1 + len + if len < 13 then 0 else if len < 269 then 1 else 2
  }

  function Cost(segments: seq<seq<byte>>): nat
  {
    if segments == [] then 0 else SegmentCost(|segments[0]|) + Cost(segments[1..])
  }

  lemma {:induction false} CostConcat(a: seq<seq<byte>>, b: seq<seq<byte>>)
    ensures Cost(a + b) == Cost(a) + Cost(b)
  {
    if a == [] {
      assert a + b == b;
    } else {
      CostConcat(a[1..], b);
      CostOf(a[0], a[1..]);
      CostOf(a[0], a[1..] + b);
      assert a == [a[0]] + a[1..] && a + b == [a[0]] + (a[1..] + b);
    }
  }

  lemma SegmentFits(len: nat, rest: nat)
    ensures SegmentCost(len) <= ComponentEstimate(len)
    ensures SegmentCost(len) + ComponentEstimate(rest) <= ComponentEstimate(len + 1 + rest)
  {
    assert len / 13 + rest / 13 <= (len + 1 + rest) / 13;
  }

  lemma {:induction false} TextFits(t: seq<byte>)
    ensures Cost(Segments(t)) <= ComponentEstimate(|t|)
    decreases |t|
  {
    hide SegmentCost, ComponentEstimate, Segments, Cost;
    var k := FirstSlash(t);
    if SLASH !in t {
      NoSlash(t);
      CostOf(t, []);
      SegmentFits(|t|, 0);
      assert [t] + [] == [t];
    } else {
      var g, rest := t[..k], t[k + 1..];
      assert k < |t|;
      assert t == g + [SLASH] + rest;
      TextFits(rest);
      SegmentsStep(g, rest);
      CostOf(g, Segments(rest));
      SegmentFits(k, |rest|);
    }
  }

  lemma CostOf(g: seq<byte>, more: seq<seq<byte>>)
    ensures Cost([g] + more) == SegmentCost(|g|) + Cost(more) && Cost([]) == 0
  {
    assert ([g] + more)[1..] == more;
  }

  lemma PathTextShorter(mem: seq<byte>, end: nat)
    requires 0 in mem
    ensures |PathText(mem, end)| <= StrLen(mem)
    ensures ComponentEstimate(|PathText(mem, end)|) <= ComponentEstimate(StrLen(mem))
  {
    assert |PathText(mem, end)| / 13 <= StrLen(mem) / 13;
  }

  lemma {:induction false} EstimateFirst(pathv: seq<seq<byte>>)
    requires pathv != [] && forall c :: c in pathv ==> 0 in c
    ensures Estimate(pathv) == ComponentEstimate(StrLen(pathv[0])) + Estimate(pathv[1..])
  {
    hide ComponentEstimate, StrLen;
    if |pathv| == 1 {
      assert pathv[..0] == pathv[1..] == [];
    } else {
      EstimateFirst(pathv[..|pathv| - 1]);
      assert pathv[..|pathv| - 1][1..] == pathv[1..][..|pathv| - 2];
    }
  }

  lemma {:induction false} CostWithinEstimate(pathv: seq<seq<byte>>)
    requires forall c :: c in pathv ==> 0 in c
    ensures Cost(PathvSegments(pathv)) <= Estimate(pathv)
  {
    hide ComponentEstimate, StrLen, PathText, Segments;
    if pathv != [] {
      var t := PathText(pathv[0], |pathv[0]|);
      CostWithinEstimate(pathv[1..]);
      TextFits(t);
      PathTextShorter(pathv[0], |pathv[0]|);
      CostConcat(Segments(t), PathvSegments(pathv[1..]));
      EstimateFirst(pathv);
    }
  }

  lemma {:induction false} UriOptionsBytes(last: nat, segments: seq<seq<byte>>)
    requires last <= URI_PATH && forall g :: g in segments ==> |g| < MOD16
    ensures Writable(last, UriOptions(segments))
    ensures |OptionsBytes(last, UriOptions(segments))| == Cost(segments)
    ensures LastNumber(last, UriOptions(segments)) == if segments == [] then last else URI_PATH
    decreases |segments|
  {
    if segments != [] {
      UriOptionsBytes(URI_PATH, segments[1..]);
      assert UriOptions(segments)[1..] == UriOptions(segments[1..]);
      assert UriOptions(segments)[0] == Opt(URI_PATH, segments[0]);
    }
  }

  lemma {:induction false} SegmentWithinCost(segments: seq<seq<byte>>, g: seq<byte>)
    requires g in segments
    ensures |g| < Cost(segments)
  {
    if g != segments[0] {
      assert segments == [segments[0]] + segments[1..];
      SegmentWithinCost(segments[1..], g);
    }
  }

  /** For every path vector, the URI-Path options take at most the estimated length. */
  lemma EstimateIsEnough(pathv: seq<seq<byte>>, last: nat)
    requires forall c :: c in pathv ==> 0 in c
    requires last <= URI_PATH && Estimate(pathv) < MOD16
    ensures Writable(last, UriOptions(PathvSegments(pathv)))
    ensures |OptionsBytes(last, UriOptions(PathvSegments(pathv)))| <= Estimate(pathv)
    ensures forall g :: g in PathvSegments(pathv) ==> |g| < MOD16
  {
    hide *;
    CostWithinEstimate(pathv);
    forall g | g in PathvSegments(pathv)
      ensures |g| < MOD16
    {
      SegmentWithinCost(PathvSegments(pathv), g);
    }
    UriOptionsBytes(last, PathvSegments(pathv));
  }

  /** The bytes of all components. */
  function TotalLength(pathv: seq<seq<byte>>): nat
    requires forall c :: c in pathv ==> 0 in c
  {
    if pathv == [] then 0 else StrLen(pathv[0]) + TotalLength(pathv[1..])
  }

  /** The estimate is at most a thirteenth and a byte for each component above the length. */
  lemma {:induction false} EstimateIsClose(pathv: seq<seq<byte>>)
    requires forall c :: c in pathv ==> 0 in c
    ensures TotalLength(pathv) <= Estimate(pathv)
    ensures 13 * Estimate(pathv) <= 14 * TotalLength(pathv) + 13 * |pathv|
  {
    hide StrLen;
    if pathv != [] {
      EstimateFirst(pathv);
      EstimateIsClose(pathv[1..]);
    }
  }

  /** The segments of a path vector are those of its components in order; those of one component join to its text. */
  lemma {:induction false} ComponentsInOrder(a: seq<seq<byte>>, b: seq<seq<byte>>)
    requires forall c :: c in a + b ==> 0 in c
    ensures (forall c :: c in a ==> 0 in c) && (forall c :: c in b ==> 0 in c)
    ensures PathvSegments(a + b) == PathvSegments(a) + PathvSegments(b)
  {
    hide PathText, Segments;
    assert forall c :: c in a || c in b ==> c in a + b;
    if a == [] {
      assert a + b == b;
    } else {
      assert (a + b)[1..] == a[1..] + b;
      ComponentsInOrder(a[1..], b);
    }
  }

  lemma OneComponent(mem: seq<byte>)
    requires 0 in mem
    ensures Join(PathvSegments([mem])) == DropLastSlash(PathText(mem, |mem|))
    ensures forall g :: g in PathvSegments([mem]) ==> SLASH !in g
    ensures SLASH == '/' as int
  {
    hide PathText;
    var t := PathText(mem, |mem|);
    JoinSegments(t);
    assert Segments(t) + [] == Segments(t);
  }

  method EstimateAllocLen(pathv: seq<seq<byte>>) returns (total: nat)
    requires forall c :: c in pathv ==> 0 in c
    ensures total == Estimate(pathv)
  {
    total := 0;
    assert pathv[..0] == [];
    for i := 0 to |pathv|
      invariant total == Estimate(pathv[..i])
    {
      assert pathv[..i + 1][..i] == pathv[..i];
      var len := StrLen(pathv[i]);
      total := total + len + len / 13 + 1;
    }
    assert pathv[..|pathv|] == pathv;
  }
}
