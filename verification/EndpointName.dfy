/**
 The metric label of a request path: two substitution passes, each leftmost and
 non-overlapping (services/metrics.py:53-66).
 */
module EndpointName {

  const ID := "{id}"

  // ---- substitution ----

  /** Length of a match at the start of the text, 0 for none. */
  type Matcher = string -> nat

  /** re.sub: replace at the leftmost match, go on behind it. */
  function Sub(m: Matcher, replacement: string, s: string): string
    decreases |s|
  {
    if s == "" then ""
    else if 0 < m(s) <= |s| then replacement + Sub(m, replacement, s[m(s)..])
    else [s[0]] + Sub(m, replacement, s[1..])
  }

  /** A text cut into characters to keep and matches to replace. */
  datatype Piece = Kept(c: char) | Match(text: string)

  function Original(pieces: seq<Piece>): string {
    if pieces == [] then ""
    else (match pieces[0] case Kept(c) => [c] case Match(t) => t) + Original(pieces[1..])
  }

  function Rendered(pieces: seq<Piece>, replacement: string): string {
    if pieces == [] then ""
    else (match pieces[0] case Kept(c) => [c] case Match(_) => replacement) + Rendered(pieces[1..], replacement)
  }

  /** Matches are matches where they stand, and no character is kept where a match starts. */
  ghost predicate Leftmost(m: Matcher, pieces: seq<Piece>) {
    forall k :: 0 <= k < |pieces| ==>
      var here := Original(pieces[k..]);
      match pieces[k]
      case Kept(_) => !(0 < m(here) <= |here|)
      case Match(t) => |t| == m(here) > 0
  }

  function Pieces(m: Matcher, s: string): seq<Piece>
    decreases |s|
  {
    if s == "" then []
    else if 0 < m(s) <= |s| then [Match(s[..m(s)])] + Pieces(m, s[m(s)..])
    else [Kept(s[0])] + Pieces(m, s[1..])
  }

  lemma LeftmostTail(m: Matcher, pieces: seq<Piece>)
    requires pieces != [] && Leftmost(m, pieces)
    ensures Leftmost(m, pieces[1..])
  {
    forall k | 0 <= k < |pieces[1..]|
      ensures pieces[1..][k..] == pieces[k + 1..] && pieces[1..][k] == pieces[k + 1]
    {
    }
  }

  lemma {:induction false} OriginalPieces(m: Matcher, s: string)
    ensures Original(Pieces(m, s)) == s
    decreases |s|
  {
    if s == "" {
    } else {
      var n := if 0 < m(s) <= |s| then m(s) else 1;
      OriginalPieces(m, s[n..]);
      assert Pieces(m, s)[1..] == Pieces(m, s[n..]);
      assert s == s[..n] + s[n..];
    }
  }

  lemma {:induction false} RenderedPieces(m: Matcher, replacement: string, s: string)
    ensures Rendered(Pieces(m, s), replacement) == Sub(m, replacement, s)
    decreases |s|
  {
    if s == "" {
    } else {
      var n := if 0 < m(s) <= |s| then m(s) else 1;
      RenderedPieces(m, replacement, s[n..]);
      assert Pieces(m, s)[1..] == Pieces(m, s[n..]);
    }
  }

  lemma {:induction false} PiecesLeftmost(m: Matcher, s: string)
    ensures Leftmost(m, Pieces(m, s))
    decreases |s|
  {
    if s == "" {
    } else {
      var n := if 0 < m(s) <= |s| then m(s) else 1;
      var pieces, rest := Pieces(m, s), Pieces(m, s[n..]);
      PiecesLeftmost(m, s[n..]);
      OriginalPieces(m, s);
      assert pieces[0..] == pieces;
      forall k | 1 <= k < |pieces| ensures pieces[k..] == rest[k - 1..] && pieces[k] == rest[k - 1] {
      }
    }
  }

  /** The pass keeps all text outside its matches, in order. */
  lemma SubKeepsTheRest(m: Matcher, replacement: string, s: string)
    ensures Original(Pieces(m, s)) == s
    ensures Rendered(Pieces(m, s), replacement) == Sub(m, replacement, s)
    ensures Leftmost(m, Pieces(m, s))
  {
    OriginalPieces(m, s);
    RenderedPieces(m, replacement, s);
    PiecesLeftmost(m, s);
  }

  /** And there is only one way to do it. */
  lemma {:induction false} LeftmostUnique(m: Matcher, pieces: seq<Piece>)
    requires Leftmost(m, pieces)
    ensures pieces == Pieces(m, Original(pieces))
    decreases |pieces|
  {
    if pieces == [] {
    } else {
      LeftmostTail(m, pieces);
      LeftmostUnique(m, pieces[1..]);
      var s, rest := Original(pieces), Original(pieces[1..]);
      assert pieces[0..] == pieces;
      match pieces[0]
      case Kept(c) =>
        assert s == [c] + rest && s[1..] == rest;
      case Match(t) =>
        assert s == t + rest && s[..|t|] == t && s[|t|..] == rest;
    }
  }

  /** Where the result shows no start of a replacement, it is the text itself. */
  lemma {:induction false} PlainPrefix(m: Matcher, replacement: string, s: string, k: nat)
    requires replacement != "" && k <= |Sub(m, replacement, s)|
    requires forall i :: 0 <= i < k ==> Sub(m, replacement, s)[i] != replacement[0]
    ensures k <= |s| && Sub(m, replacement, s)[..k] == s[..k]
    decreases |s|
  {
    if k == 0 {
    } else {
      var out := Sub(m, replacement, s);
      assert out[0] != replacement[0];
      var tail := Sub(m, replacement, s[1..]);
      assert out == [s[0]] + tail;
      forall i | 0 <= i < k - 1 ensures tail[i] != replacement[0] {
        assert tail[i] == out[i + 1];
      }
      PlainPrefix(m, replacement, s[1..], k - 1);
      assert out[..k] == [s[0]] + tail[..k - 1];
      assert s[..k] == [s[0]] + s[1..][..k - 1];
    }
  }

  // ---- the UUID pass ----

  predicate Hex(c: char) {
    '0' <= c <= '9' || 'a' <= c <= 'f' || 'A' <= c <= 'F'
  }

  predicate IsUuid(u: string) {
    |u| == 36 && forall k :: 0 <= k < 36 ==> if k == 8 || k == 13 || k == 18 || k == 23 then u[k] == '-' else Hex(u[k])
  }

  /** The pattern written out: five groups of hexadecimal digits of either case, joined by dashes. */
  ghost predicate UuidText(u: string) {
    |u| == 36 && forall k :: 0 <= k < 36 ==>
      if k in {8, 13, 18, 23} then u[k] == '-' else u[k] in "0123456789abcdefABCDEF"
  }

  lemma HexIff(c: char)
    ensures Hex(c) <==> c in "0123456789abcdefABCDEF"
  {
    var hex := "0123456789abcdefABCDEF";
    if '0' <= c <= '9' {
      assert hex[c as int - '0' as int] == c;
    } else if 'a' <= c <= 'f' {
      assert hex[10 + c as int - 'a' as int] == c;
    } else if 'A' <= c <= 'F' {
      assert hex[16 + c as int - 'A' as int] == c;
    }
  }

  lemma UuidTextIff(u: string)
    ensures IsUuid(u) <==> UuidText(u)
  {
    forall k | 0 <= k < |u| ensures Hex(u[k]) <==> u[k] in "0123456789abcdefABCDEF" {
      HexIff(u[k]);
    }
  }

  function LowerChar(c: char): char {
    if 'A' <= c <= 'Z' then (c as int + 32) as char else c
  }

  function Lower(s: string): string {
    seq(|s|, i requires 0 <= i < |s| => LowerChar(s[i]))
  }

  /** Letter case does not matter. */
  lemma UuidInAnyCase(u: string)
    ensures IsUuid(u) <==> IsUuid(Lower(u))
  {
    forall k | 0 <= k < |u|
      ensures Hex(u[k]) <==> Hex(Lower(u)[k])
      ensures u[k] == '-' <==> Lower(u)[k] == '-'
    {
    }
  }

  function UuidMatch(s: string): nat {
    if |s| >= 36 && IsUuid(s[..36]) then 36 else 0
  }

  function UuidPass(s: string): string {
    Sub(UuidMatch, ID, s)
  }

  ghost predicate HexText(s: string, n: nat) {
    |s| == n && forall c :: c in s ==> c in "0123456789abcdefABCDEF"
  }

  lemma GroupsAreUuid(a: string, b: string, c: string, d: string, e: string)
    requires HexText(a, 8) && HexText(b, 4) && HexText(c, 4) && HexText(d, 4) && HexText(e, 12)
    ensures UuidText(a + "-" + b + "-" + c + "-" + d + "-" + e)
  {
    var u := a + "-" + b + "-" + c + "-" + d + "-" + e;
    assert u[..8] == a && u[9..13] == b && u[14..18] == c && u[19..23] == d && u[24..] == e;
    assert u[8] == '-' && u[13] == '-' && u[18] == '-' && u[23] == '-';
    forall k | 0 <= k < 36 && k !in {8, 13, 18, 23} ensures u[k] in "0123456789abcdefABCDEF" {
      assert u[k] in a || u[k] in b || u[k] in c || u[k] in d || u[k] in e by {
        if k < 8 { assert u[k] == a[k]; }
        else if k < 13 { assert u[k] == b[k - 9]; }
        else if k < 18 { assert u[k] == c[k - 14]; }
        else if k < 23 { assert u[k] == d[k - 19]; }
        else { assert u[k] == e[k - 24]; }
      }
    }
  }

  /** A UUID of groups of 8, 4, 4, 4 and 12 hexadecimal digits, in either case, becomes `{id}`. */
  lemma UuidBecomesId(a: string, b: string, c: string, d: string, e: string)
    requires HexText(a, 8) && HexText(b, 4) && HexText(c, 4) && HexText(d, 4) && HexText(e, 12)
    ensures UuidPass(a + "-" + b + "-" + c + "-" + d + "-" + e) == "{id}"
  {
    var u := a + "-" + b + "-" + c + "-" + d + "-" + e;
    GroupsAreUuid(a, b, c, d, e);
    UuidTextIff(u);
    assert u[..36] == u && u[36..] == "";
    assert UuidMatch(u) == 36;
    assert UuidPass("") == "";
  }

  predicate UuidAt(s: string, i: nat) {
    i + 36 <= |s| && IsUuid(s[i..i + 36])
  }

  ghost predicate HasUuid(s: string) {
    exists i :: UuidAt(s, i)
  }

  lemma UuidChars(s: string, i: nat, k: nat)
    requires UuidAt(s, i) && i <= k < i + 36
    ensures s[k] != '{' && s[k] != '}' && s[k] != '/'
  {
    assert s[k] == s[i..i + 36][k - i];
  }

  lemma UuidShift(front: string, tail: string, i: nat)
    requires i >= |front|
    ensures UuidAt(front + tail, i) <==> UuidAt(tail, i - |front|)
  {
    if i + 36 <= |front + tail| {
      assert (front + tail)[i..i + 36] == tail[i - |front|..i - |front| + 36];
    }
  }

  /** Behind a short text that ends in a brace or slash a UUID can only start anew. */
  lemma NoUuidAcross(front: string, tail: string, i: nat)
    requires 0 < |front| <= 36 && UuidAt(front + tail, i)
    requires front[|front| - 1] == '}' || front[|front| - 1] == '/'
    ensures i >= |front| && UuidAt(tail, i - |front|)
  {
    if i < |front| {
      UuidChars(front + tail, i, |front| - 1);
    }
    UuidShift(front, tail, i);
  }

  /** A pass whose replacement starts with a brace or slash builds no UUID at the start of its result. */
  lemma NoUuidBuilt(m: Matcher, replacement: string, s: string)
    requires replacement != "" && (replacement[0] == '{' || replacement[0] == '/')
    requires UuidAt(Sub(m, replacement, s), 0)
    ensures UuidAt(s, 0)
  {
    var out := Sub(m, replacement, s);
    forall k | 0 <= k < 36 ensures out[k] != replacement[0] {
      UuidChars(out, 0, k);
    }
    PlainPrefix(m, replacement, s, 36);
    assert out[0..36] == out[..36] && s[0..36] == s[..36];
  }

  lemma {:induction false} NoUuidAtAfterPass(s: string, i: nat)
    ensures !UuidAt(UuidPass(s), i)
    decreases |s|
  {
    var out := UuidPass(s);
    if UuidAt(out, i) {
      if UuidMatch(s) == 36 {
        NoUuidAcross(ID, UuidPass(s[36..]), i);
        NoUuidAtAfterPass(s[36..], i - 4);
      } else if i > 0 {
        assert out == [s[0]] + UuidPass(s[1..]);
        UuidShift([s[0]], UuidPass(s[1..]), i);
        NoUuidAtAfterPass(s[1..], i - 1);
      } else {
        NoUuidBuilt(UuidMatch, ID, s);
      }
    }
  }

  ghost predicate UuidTextAt(s: string, i: nat) {
    i + 36 <= |s| && UuidText(s[i..i + 36])
  }

  lemma NoUuidText(s: string)
    requires !HasUuid(s)
    ensures forall i: nat :: !UuidTextAt(s, i)
  {
    forall i: nat ensures !UuidTextAt(s, i) {
      assert !UuidAt(s, i);
      if i + 36 <= |s| { UuidTextIff(s[i..i + 36]); }
    }
  }

  /** No UUID, in any letter case, survives the pass or is put together by it. */
  lemma NoUuidLeft(s: string)
    ensures !HasUuid(UuidPass(s))
    ensures forall i: nat :: !UuidTextAt(UuidPass(s), i)
  {
    forall i: nat ensures !UuidAt(UuidPass(s), i) {
      NoUuidAtAfterPass(s, i);
    }
    NoUuidText(UuidPass(s));
  }

  // ---- the numeric pass ----

  /** What `\\d` matches; any class that contains neither the slash nor the brace. */
  type DigitClass = d: char -> bool | !d('/') && !d('{') witness c => '0' <= c <= '9'

  function DigitRun(d: DigitClass, s: string): (n: nat)
    ensures n <= |s| && (forall i :: 0 <= i < n ==> d(s[i])) && (n < |s| ==> !d(s[n]))
  {
    if s != "" && d(s[0]) then 1 + DigitRun(d, s[1..]) else 0
  }

  function NumericMatch(d: DigitClass, s: string): nat {
    if s != "" && s[0] == '/' then
      var n := DigitRun(d, s[1..]);
      if n > 0 && n + 1 < |s| && s[n + 1] == '/' then n + 2 else 0
    else 0
  }

  function NumericPass(d: DigitClass, s: string): string {
    Sub(t => NumericMatch(d, t), "/" + ID + "/", s)
  }

  /** get_endpoint_name. */
  function EndpointOf(d: DigitClass, path: string): string {
    NumericPass(d, UuidPass(path))
  }

  lemma UuidFreeTail(s: string, k: nat)
    requires !HasUuid(s) && k <= |s|
    ensures !HasUuid(s[k..])
  {
    forall i: nat ensures !UuidAt(s[k..], i) {
      assert s == s[..k] + s[k..];
      UuidShift(s[..k], s[k..], i + k);
    }
  }

  lemma {:induction false} NoUuidAtAfterNumericPass(d: DigitClass, s: string, i: nat)
    requires !HasUuid(s)
    ensures !UuidAt(NumericPass(d, s), i)
    decreases |s|
  {
    var out, n := NumericPass(d, s), NumericMatch(d, s);
    if UuidAt(out, i) {
      if 0 < n <= |s| {
        UuidFreeTail(s, n);
        NoUuidAcross("/" + ID + "/", NumericPass(d, s[n..]), i);
        NoUuidAtAfterNumericPass(d, s[n..], i - 6);
      } else if i > 0 {
        UuidFreeTail(s, 1);
        assert out == [s[0]] + NumericPass(d, s[1..]);
        UuidShift([s[0]], NumericPass(d, s[1..]), i);
        NoUuidAtAfterNumericPass(d, s[1..], i - 1);
      } else {
        NoUuidBuilt(t => NumericMatch(d, t), "/" + ID + "/", s);
      }
    }
  }

  lemma NumericPassKeepsUuidFree(d: DigitClass, s: string)
    requires !HasUuid(s)
    ensures !HasUuid(NumericPass(d, s))
  {
    forall i: nat ensures !UuidAt(NumericPass(d, s), i) {
      NoUuidAtAfterNumericPass(d, s, i);
    }
  }

  /** No label ever carries a UUID, whatever the path. */
  lemma LabelsCarryNoUuid(d: DigitClass, path: string)
    ensures !HasUuid(EndpointOf(d, path))
    ensures forall i: nat :: !UuidTextAt(EndpointOf(d, path), i)
  {
    NoUuidLeft(path);
    NumericPassKeepsUuidFree(d, UuidPass(path));
    NoUuidText(EndpointOf(d, path));
  }

  // ---- the numeric pass, segment by segment ----

  ghost predicate Segments(segs: seq<string>) {
    segs != [] && forall i :: 0 <= i < |segs| ==> '/' !in segs[i]
  }

  function Join(segs: seq<string>): string
    requires segs != []
  {
    if |segs| == 1 then segs[0] else segs[0] + "/" + Join(segs[1..])
  }

  predicate Numeric(d: DigitClass, seg: string) {
    seg != "" && forall i :: 0 <= i < |seg| ==> d(seg[i])
  }

  /** A segment is replaced if it is numeric, has a slash on both sides, and its left slash is not already used up. */
  predicate Replaced(d: DigitClass, segs: seq<string>, i: nat)
    requires i < |segs|
    decreases i
  {
    0 < i < |segs| - 1 && Numeric(d, segs[i]) && !Replaced(d, segs, i - 1)
  }

  function Normalised(d: DigitClass, segs: seq<string>): seq<string> {
    seq(|segs|, i requires 0 <= i < |segs| => if Replaced(d, segs, i) then ID else segs[i])
  }

  function Split(s: string): (segs: seq<string>)
    ensures segs != []
  {
    if s == "" then [""]
    else
      var rest := Split(s[1..]);
      if s[0] == '/' then [""] + rest else [[s[0]] + rest[0]] + rest[1..]
  }

  lemma JoinSlash(rest: seq<string>)
    requires Segments(rest)
    ensures Segments([""] + rest) && Join([""] + rest) == "/" + Join(rest)
  {
    assert ([""] + rest)[1..] == rest;
  }

  lemma JoinChar(c: char, rest: seq<string>)
    requires Segments(rest) && c != '/'
    ensures Segments([[c] + rest[0]] + rest[1..]) && Join([[c] + rest[0]] + rest[1..]) == [c] + Join(rest)
  {
    var first, tail := [c] + rest[0], rest[1..];
    var segs := [first] + tail;
    assert '/' !in first;
    forall i | 0 <= i < |segs| ensures '/' !in segs[i] {
      if i > 0 { assert segs[i] == rest[i]; }
    }
    if tail != [] {
      assert segs[1..] == tail;
      CharAssociates(c, rest[0], Join(tail));
    }
  }

  lemma CharAssociates(c: char, seg: string, t: string)
    ensures [c] + seg + "/" + t == [c] + (seg + "/" + t)
  {
  }

  lemma {:induction false} SplitJoins(s: string)
    ensures Segments(Split(s)) && Join(Split(s)) == s
  {
    if s == "" {
    } else {
      var rest := Split(s[1..]);
      SplitJoins(s[1..]);
      if s[0] == '/' {
        JoinSlash(rest);
      } else {
        JoinChar(s[0], rest);
      }
    }
  }

  /** Text without slashes is copied. */
  lemma {:induction false} CopyText(d: DigitClass, seg: string, t: string)
    requires '/' !in seg
    ensures NumericPass(d, seg + t) == seg + NumericPass(d, t)
  {
    if seg == "" {
      assert seg + t == t;
    } else {
      var s := seg + t;
      assert s[0] == seg[0] && s[1..] == seg[1..] + t;
      CopyText(d, seg[1..], t);
      assert seg == [seg[0]] + seg[1..];
    }
  }

  lemma RunOfSegment(d: DigitClass, seg: string, t: string)
    requires '/' !in seg && (t == "" || t[0] == '/')
    ensures var n := DigitRun(d, seg + t);
            Numeric(d, seg) ==> n == |seg|
    ensures !Numeric(d, seg) ==> DigitRun(d, seg + t) == 0 || DigitRun(d, seg + t) < |seg|
  {
    var s := seg + t;
    var n := DigitRun(d, s);
    assert forall i :: 0 <= i < |seg| ==> s[i] == seg[i];
    assert t != "" ==> s[|seg|] == '/';
  }

  /** A slash followed by a segment: what matches there. */
  lemma MatchAtSlash(d: DigitClass, seg: string, t: string)
    requires '/' !in seg && (t == "" || t[0] == '/')
    ensures NumericMatch(d, "/" + seg + t) == if Numeric(d, seg) && t != "" then |seg| + 2 else 0
  {
    var s := "/" + seg + t;
    assert s[1..] == seg + t;
    RunOfSegment(d, seg, t);
    var n := DigitRun(d, seg + t);
    if n > 0 && n + 1 < |s| {
      if n < |seg| {
        assert s[n + 1] == seg[n];
      } else {
        assert s[n + 1] == t[n - |seg|];
      }
    }
  }

  /** The pass over a slash and a segment, up to the next slash. */
  lemma PassSegment(d: DigitClass, seg: string, t: string)
    requires '/' !in seg
    ensures NumericPass(d, "/" + seg + "/" + t)
         == if Numeric(d, seg) then "/" + ID + "/" + NumericPass(d, t) else "/" + seg + NumericPass(d, "/" + t)
    ensures NumericPass(d, seg + "/" + t) == seg + NumericPass(d, "/" + t)
  {
    var s := "/" + seg + "/" + t;
    assert s == "/" + seg + ("/" + t) && seg + "/" + t == seg + ("/" + t);
    MatchAtSlash(d, seg, "/" + t);
    CopyText(d, seg, "/" + t);
    if Numeric(d, seg) {
      PassMatch(d, s);
      assert s[|seg| + 2..] == t;
    } else {
      PassNoMatch(d, s);
      assert s[1..] == seg + ("/" + t);
    }
  }

  lemma PassMatch(d: DigitClass, s: string)
    requires 0 < NumericMatch(d, s) <= |s|
    ensures NumericPass(d, s) == "/" + ID + "/" + NumericPass(d, s[NumericMatch(d, s)..])
  {
  }

  lemma PassNoMatch(d: DigitClass, s: string)
    requires s != "" && NumericMatch(d, s) == 0
    ensures NumericPass(d, s) == [s[0]] + NumericPass(d, s[1..])
  {
  }

  /** A numeric segment between slashes becomes `{id}`; both its slashes are used up. */
  lemma NumberBecomesId(d: DigitClass, seg: string, t: string)
    requires seg != "" && forall i :: 0 <= i < |seg| ==> d(seg[i])
    ensures NumericPass(d, "/" + seg + "/" + t) == "/{id}/" + NumericPass(d, t)
  {
    PassSegment(d, seg, t);
    assert "/" + ID + "/" == "/{id}/";
  }

  /** The pass over the last segment. */
  lemma PassLast(d: DigitClass, seg: string)
    requires '/' !in seg
    ensures NumericPass(d, "/" + seg) == "/" + seg && NumericPass(d, seg) == seg
  {
    assert "/" + seg + "" == "/" + seg && seg + "" == seg;
    MatchAtSlash(d, seg, "");
    CopyText(d, seg, "");
    assert ("/" + seg)[1..] == seg;
  }

  lemma JoinFrom(segs: seq<string>, i: nat)
    requires i < |segs|
    ensures Join(segs[i..]) == if i == |segs| - 1 then segs[i] else segs[i] + "/" + Join(segs[i + 1..])
  {
    assert segs[i..][0] == segs[i];
    if i < |segs| - 1 { assert segs[i..][1..] == segs[i + 1..]; }
  }

  /** Suffixes of the normalised path; `free` says whether the slash before segment `i` is still to be matched. */
  lemma {:induction false} PassFrom(d: DigitClass, segs: seq<string>, i: nat, free: bool)
    requires Segments(segs) && i < |segs|
    requires free <==> i > 0 && !Replaced(d, segs, i - 1)
    ensures var done := Normalised(d, segs)[i..];
            if free then NumericPass(d, "/" + Join(segs[i..])) == "/" + Join(done)
            else NumericPass(d, Join(segs[i..])) == Join(done)
    decreases |segs| - i
  {
    var out, seg := Normalised(d, segs), segs[i];
    JoinFrom(segs, i);
    JoinFrom(out, i);
    if i == |segs| - 1 {
      PassLast(d, seg);
    } else {
      PassFrom(d, segs, i + 1, !Replaced(d, segs, i));
      PassOneMore(d, seg, Join(segs[i + 1..]), Join(out[i + 1..]), free);
    }
  }

  /** One segment and the rest of the path, whose pass is known to give `rest`. */
  lemma PassOneMore(d: DigitClass, seg: string, t: string, rest: string, free: bool)
    requires '/' !in seg
    requires if free && Numeric(d, seg) then NumericPass(d, t) == rest else NumericPass(d, "/" + t) == "/" + rest
    ensures var here := if free && Numeric(d, seg) then ID else seg;
            if free then NumericPass(d, "/" + (seg + "/" + t)) == "/" + (here + "/" + rest)
            else NumericPass(d, seg + "/" + t) == here + "/" + rest
  {
    PassSegment(d, seg, t);
    SlashesAssociate(seg, t);
    SlashesAssociate(if free && Numeric(d, seg) then ID else seg, rest);
  }

  lemma SlashesAssociate(done: string, rest: string)
    ensures "/" + (done + "/" + rest) == "/" + done + "/" + rest
    ensures "/" + (done + "/" + rest) == "/" + done + ("/" + rest)
    ensures done + "/" + rest == done + ("/" + rest)
  {
  }

  /** The pass replaces exactly the segments the rule names, on every path. */
  lemma NumericPassBySegments(d: DigitClass, path: string)
    ensures NumericPass(d, path) == Join(Normalised(d, Split(path)))
  {
    var segs := Split(path);
    SplitJoins(path);
    PassFrom(d, segs, 0, false);
    assert segs[0..] == segs && Normalised(d, segs)[0..] == Normalised(d, segs);
  }

  /** In a run of numeric segments between slashes the 1st, 3rd, 5th and so on are replaced, the others kept. */
  lemma {:induction false} RunsAlternate(d: DigitClass, segs: seq<string>, first: nat, k: nat)
    requires 0 < first && first + k < |segs| - 1 && !Numeric(d, segs[first - 1])
    requires forall j :: first <= j <= first + k ==> Numeric(d, segs[j])
    ensures Replaced(d, segs, first + k) <==> k % 2 == 0
  {
    if k == 0 {
    } else {
      RunsAlternate(d, segs, first, k - 1);
    }
  }

  /** Two neighbouring segments that are both numeric and both between slashes. */
  ghost predicate NumericPair(d: DigitClass, segs: seq<string>, i: nat) {
    0 < i && i + 1 < |segs| - 1 && Numeric(d, segs[i]) && Numeric(d, segs[i + 1])
  }

  lemma IdNotNumeric(d: DigitClass)
    ensures !Numeric(d, ID)
  {
    assert ID[0] == '{';
  }

  /** After one pass, what a second pass would still replace: exactly the numeric segments the first skipped. */
  lemma {:induction false} SecondPass(d: DigitClass, segs: seq<string>, i: nat)
    requires i < |segs|
    ensures Replaced(d, Normalised(d, segs), i) <==>
              0 < i < |segs| - 1 && Numeric(d, segs[i]) && Replaced(d, segs, i - 1)
    decreases i
  {
    IdNotNumeric(d);
    if i == 0 {
    } else {
      SecondPass(d, segs, i - 1);
    }
  }

  lemma NormalisedTwiceIff(d: DigitClass, segs: seq<string>)
    ensures Normalised(d, Normalised(d, segs)) == Normalised(d, segs) <==> forall i :: !NumericPair(d, segs, i)
  {
    IdNotNumeric(d);
    var once := Normalised(d, segs);
    var twice := Normalised(d, once);
    if i :| NumericPair(d, segs, i) {
      var j := if Replaced(d, segs, i) then i + 1 else i;
      SecondPass(d, segs, j);
      assert twice[j] == ID && once[j] == segs[j];
    } else {
      forall i | 0 <= i < |segs| ensures twice[i] == once[i] {
        SecondPass(d, segs, i);
        if Replaced(d, once, i) {
          assert NumericPair(d, segs, i - 1);
        }
      }
    }
  }

  // ---- labels of labels ----

  lemma {:induction false} SplitSegment(seg: string, t: string)
    requires '/' !in seg
    ensures Split(seg + "/" + t) == [seg] + Split(t)
  {
    var s := seg + "/" + t;
    if seg == "" {
      assert s[1..] == t;
    } else {
      SplitSegment(seg[1..], t);
      assert s[0] == seg[0] && s[1..] == seg[1..] + "/" + t;
      assert [seg[0]] + seg[1..] == seg;
    }
  }

  lemma {:induction false} SplitLast(seg: string)
    requires '/' !in seg
    ensures Split(seg) == [seg]
  {
    if seg == "" {
    } else {
      SplitLast(seg[1..]);
      assert [seg[0]] + seg[1..] == seg;
    }
  }

  /** Cutting at the slashes undoes joining with slashes, as joining undoes cutting. */
  lemma {:induction false} SplitOfJoin(segs: seq<string>)
    requires Segments(segs)
    ensures Split(Join(segs)) == segs
  {
    if |segs| == 1 {
      SplitLast(segs[0]);
    } else {
      SplitOfJoin(segs[1..]);
      SplitSegment(segs[0], Join(segs[1..]));
    }
  }

  /** What the second pass leaves, cut again. */
  lemma SplitOfPass(d: DigitClass, path: string)
    ensures Split(NumericPass(d, path)) == Normalised(d, Split(path))
  {
    var segs := Split(path);
    SplitJoins(path);
    NumericPassBySegments(d, path);
    assert '/' !in ID;
    forall i | 0 <= i < |segs| ensures '/' !in Normalised(d, segs)[i] {
      assert '/' !in segs[i];
    }
    SplitOfJoin(Normalised(d, segs));
  }

  lemma NumericPassStableIff(d: DigitClass, path: string)
    ensures NumericPass(d, NumericPass(d, path)) == NumericPass(d, path) <==> forall i :: !NumericPair(d, Split(path), i)
  {
    SplitOfPass(d, path);
    SplitOfPass(d, NumericPass(d, path));
    NumericPassBySegments(d, NumericPass(d, path));
    SplitJoins(NumericPass(d, path));
    NormalisedTwiceIff(d, Split(path));
  }

  /** The first pass has nothing to do on a text without UUIDs. */
  lemma {:induction false} UuidPassIdle(s: string)
    requires !HasUuid(s)
    ensures UuidPass(s) == s
  {
    if s == "" {
    } else {
      assert !UuidAt(s, 0);
      assert |s| >= 36 ==> s[0..36] == s[..36];
      UuidFreeTail(s, 1);
      UuidPassIdle(s[1..]);
      assert s == [s[0]] + s[1..];
    }
  }

  /** A label is its own label exactly when, UUIDs aside, no two numeric segments of the path stand side by side. */
  lemma NormalisingIsStableIff(d: DigitClass, path: string)
    ensures EndpointOf(d, EndpointOf(d, path)) == EndpointOf(d, path) <==>
              forall i :: !NumericPair(d, Split(UuidPass(path)), i)
  {
    LabelsCarryNoUuid(d, path);
    UuidPassIdle(EndpointOf(d, path));
    NumericPassStableIff(d, UuidPass(path));
  }
}
