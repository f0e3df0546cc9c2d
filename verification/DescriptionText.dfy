/** The text side of the AppStream description renderer: streaming whitespace normalisation, and
    the segmenter that finds emphasised text and links. */
module DescriptionText {
  import opened Order

  // ----- whitespace

  /** g_unichar_isspace: tab, newline, return, form feed, and the Unicode separators. */
  predicate IsSpace(c: char) {
    || c == '\t' || c == '\n' || c == '\r' || c == '\U{000C}'
    || c == ' ' || c == '\U{00A0}' || c == '\U{1680}'
    || '\U{2000}' <= c <= '\U{200A}'
    || c == '\U{2028}' || c == '\U{2029}' || c == '\U{202F}' || c == '\U{205F}' || c == '\U{3000}'
  }

  /** The two flags that every call shares with the calls before it. */
  datatype Ws = Ws(inSpace: bool, atStart: bool)

  const FRESH := Ws(false, true)

  function NormalizeChar(c: char, ws: Ws): (string, Ws) {
    if IsSpace(c) then ("", if ws.atStart then ws else ws.(inSpace := true))
    else ((if !ws.atStart && ws.inSpace then " " else "") + [c], Ws(false, false))
  }

  function Normalize(text: string, ws: Ws): (string, Ws) {
    if text == "" then ("", ws)
    else
      var (out, w) := Normalize(text[..|text|-1], ws);
      var (o, w') := NormalizeChar(text[|text|-1], w);
      (out + o, w')
  }

  class WsState {
    var inSpace: bool
    var atStart: bool

    constructor ()
      ensures Value() == FRESH
    {
      inSpace, atStart := false, true;
    }

    function Value(): Ws
      reads this
    {
      Ws(inSpace, atStart)
    }
  }

  method NormalizeWhitespace(text: string, ws: WsState) returns (result: string)
    modifies ws
    ensures (result, ws.Value()) == Normalize(text, old(ws.Value()))
  {
    hide IsSpace;
    result := "";
    ghost var w := ws.Value();
    for i := 0 to |text|
      invariant (result, ws.Value()) == Normalize(text[..i], w)
    {
      PrefixStep(text, i);
      var ch := text[i];
      if IsSpace(ch) {
        assert result + "" == result;
        if !ws.atStart {
          ws.inSpace := true;
        }
      } else {
        assert (result + " ") + [ch] == result + (" " + [ch]) && "" + [ch] == [ch];
        if !ws.atStart && ws.inSpace {
          result := result + " ";
        }
        result := result + [ch];
        ws.inSpace := false;
        ws.atStart := false;
      }
    }
    assert text[..|text|] == text;
  }

  /** Normalising piece by piece with shared flags is normalising the concatenation. */
  lemma {:induction false} NormalizeConcat(a: string, b: string, ws: Ws)
    ensures var (o1, w1) := Normalize(a, ws); var (o2, w2) := Normalize(b, w1);
            Normalize(a + b, ws) == (o1 + o2, w2)
  {
    if b == "" {
      assert a + b == a;
      assert Normalize(a, ws).0 + "" == Normalize(a, ws).0;
    } else {
      var n := |b| - 1;
      NormalizeConcat(a, b[..n], ws);
      assert (a + b)[..|a + b| - 1] == a + b[..n];
      var (o1, w1) := Normalize(a, ws);
      var (o2, w2) := Normalize(b[..n], w1);
      var o := NormalizeChar(b[n], w2).0;
      assert (o1 + o2) + o == o1 + (o2 + o);
    }
  }

  /** The words of a text: its maximal runs of characters that are not whitespace. */
  function Words(s: string): (w: seq<string>)
    ensures s != "" && !IsSpace(s[0]) ==> |w| > 0 && w[0] != ""
  {
    if s == "" then []
    else if IsSpace(s[0]) then Words(s[1..])
    else if |s| == 1 || IsSpace(s[1]) then [[s[0]]] + Words(s[1..])
    else [[s[0]] + Words(s[1..])[0]] + Words(s[1..])[1..]
  }

  function JoinWords(w: seq<string>): string {
    if w == [] then "" else if |w| == 1 then w[0] else w[0] + " " + JoinWords(w[1..])
  }

  function Lead(s: string, ws: Ws): string {
    if s != "" && Words(s) != [] && !ws.atStart && (ws.inSpace || IsSpace(s[0])) then " " else ""
  }

  lemma NormalizeCons(c: char, s: string, ws: Ws)
    ensures var (o, w) := NormalizeChar(c, ws);
            Normalize([c] + s, ws) == (o + Normalize(s, w).0, Normalize(s, w).1)
  {
    NormalizeConcat([c], s, ws);
    assert [c][..0] == "";
    var (o, w) := NormalizeChar(c, ws);
    assert Normalize([c], ws) == ("" + o, w) && "" + o == o;
  }

  /** The words of `[c] + t`, for a `c` that is not whitespace. */
  lemma JoinStep(c: char, t: string)
    requires !IsSpace(c)
    ensures JoinWords(Words([c] + t)) == [c] + Lead(t, Ws(false, false)) + JoinWords(Words(t))
  {
  }

  /** The output from any state: the words joined by single spaces, after the separator that the
      earlier text still owes. */
  lemma {:induction false} NormalizeIsWords(s: string, ws: Ws)
    ensures Normalize(s, ws).0 == Lead(s, ws) + JoinWords(Words(s))
  {
    if s != "" {
      var c, t := s[0], s[1..];
      assert s == [c] + t;
      NormalizeCons(c, t, ws);
      NormalizeIsWords(t, NormalizeChar(c, ws).1);
      if IsSpace(c) {
        SpaceStep(c, t, ws);
      } else {
        LetterStep(c, t, ws);
      }
    }
  }

  lemma SpaceStep(c: char, t: string, ws: Ws)
    requires IsSpace(c)
    ensures NormalizeChar(c, ws).0 + (Lead(t, NormalizeChar(c, ws).1) + JoinWords(Words(t)))
         == Lead([c] + t, ws) + JoinWords(Words([c] + t))
  {
  }

  lemma LeadLetter(c: char, t: string, ws: Ws)
    requires !IsSpace(c)
    ensures Lead([c] + t, ws) == if !ws.atStart && ws.inSpace then " " else ""
  {
  }

  lemma LetterStep(c: char, t: string, ws: Ws)
    requires !IsSpace(c)
    ensures NormalizeChar(c, ws).0 + (Lead(t, NormalizeChar(c, ws).1) + JoinWords(Words(t)))
         == Lead([c] + t, ws) + JoinWords(Words([c] + t))
  {
    hide IsSpace, Words, JoinWords, Lead;
    LeadLetter(c, t, ws);
    JoinStep(c, t);
    var owed := if !ws.atStart && ws.inSpace then " " else "";
    var l, j := Lead(t, Ws(false, false)), JoinWords(Words(t));
    assert (owed + [c]) + (l + j) == owed + ([c] + l + j);
  }

  /** From a fresh start the output is exactly the words of the text joined by single spaces. */
  lemma NormalizeFresh(s: string)
    ensures Normalize(s, FRESH).0 == JoinWords(Words(s))
  {
    NormalizeIsWords(s, FRESH);
  }

  // ----- substrings

  predicate OccursAt(s: string, needle: string, i: int) {
    0 <= i <= |s| && HasPrefix(s[i..], needle)
  }

  /** strstr: where the needle occurs first. */
  function Find(s: string, needle: string): (r: Option<nat>)
    ensures r.Some? ==> OccursAt(s, needle, r.value) && forall j :: 0 <= j < r.value ==> !OccursAt(s, needle, j)
    ensures r.None? ==> forall j :: 0 <= j <= |s| ==> !OccursAt(s, needle, j)
  {
    assert s[0..] == s;
    if HasPrefix(s, needle) then Some(0)
    else if s == "" then None
    else
      assert forall j :: 1 <= j <= |s| ==> s[j..] == s[1..][j-1..];
      match Find(s[1..], needle)
      case None =>
        assert forall j :: 1 <= j <= |s| ==> OccursAt(s, needle, j) == OccursAt(s[1..], needle, j - 1);
        None
      case Some(i) =>
        assert forall j :: 1 <= j <= |s| ==> OccursAt(s, needle, j) == OccursAt(s[1..], needle, j - 1);
        Some(i + 1)
  }

  // ----- emphasis: splitting at "**"

  const STARS := "**"

  /** g_strsplit (text, "**", -1); the empty string has no parts. */
  function Split(text: string): seq<string> {
    if text == "" then [] else SplitRest(text)
  }

  function SplitRest(text: string): (parts: seq<string>)
    ensures |parts| > 0
  {
    match Find(text, STARS)
    case None => [text]
    case Some(i) => [text[..i]] + SplitRest(text[i + 2..])
  }

  function Concat(parts: seq<string>): string {
    if parts == [] then "" else parts[0] + Concat(parts[1..])
  }

  /** The text without its separators, which pair stars off from the left. */
  function WithoutStars(s: string): (r: string)
    ensures |r| <= |s|
  {
    if s == "" then ""
    else if HasPrefix(s, STARS) then WithoutStars(s[2..])
    else [s[0]] + WithoutStars(s[1..])
  }

  lemma NotBefore(s: string, i: nat)
    requires 0 < i <= |s| && forall j :: 0 <= j < i ==> !OccursAt(s, STARS, j)
    ensures !HasPrefix(s, STARS) && forall j :: 0 <= j < i - 1 ==> !OccursAt(s[1..], STARS, j)
  {
    assert !OccursAt(s, STARS, 0) && s[0..] == s;
    forall j | 0 <= j < i - 1
      ensures !OccursAt(s[1..], STARS, j)
    {
      assert !OccursAt(s, STARS, j + 1) && s[1..][j..] == s[j + 1..];
    }
  }

  lemma {:induction false} WithoutStarsUpTo(s: string, i: nat)
    requires i <= |s| && forall j :: 0 <= j < i ==> !OccursAt(s, STARS, j)
    ensures WithoutStars(s) == s[..i] + WithoutStars(s[i..])
  {
    if i > 0 {
      NotBefore(s, i);
      hide OccursAt;
      WithoutStarsUpTo(s[1..], i - 1);
      assert s[1..][i-1..] == s[i..] && s[..i] == [s[0]] + s[1..][..i-1];
    } else {
      assert s[0..] == s;
    }
  }

  /** The parts of a text concatenate to the text with every "**" separator removed. */
  lemma {:induction false} SplitConserves(text: string)
    ensures Concat(SplitRest(text)) == WithoutStars(text)
    ensures Concat(Split(text)) == WithoutStars(text)
    decreases |text|
  {
    match Find(text, STARS)
    case None =>
      WithoutStarsUpTo(text, |text|);
      assert Concat([text]) == text + Concat([]) == text;
    case Some(i) =>
      WithoutStarsUpTo(text, i);
      SplitConserves(text[i + 2..]);
      assert text[i..][2..] == text[i + 2..];
      assert ([text[..i]] + SplitRest(text[i + 2..]))[1..] == SplitRest(text[i + 2..]);
  }

  /** Removing separators changes a text exactly when it has one. */
  lemma {:induction false} WithoutStarsSame(s: string)
    ensures WithoutStars(s) == s <==> Find(s, STARS).None?
  {
    if Find(s, STARS).None? {
      WithoutStarsUpTo(s, |s|);
    } else {
      var i := Find(s, STARS).value;
      WithoutStarsUpTo(s, i);
      assert |WithoutStars(s[i..])| <= |s[i..][2..]|;
    }
  }

  /** Two stars in a row. */
  ghost predicate Starred(s: string) {
    exists i :: 0 <= i < |s| - 1 && s[i] == '*' == s[i+1]
  }

  predicate EndsInStar(s: string) {
    s != "" && s[|s|-1] == '*'
  }

  lemma StarsAreFound(s: string)
    ensures Find(s, STARS).Some? <==> Starred(s)
  {
    hide Find;
    if i :| 0 <= i < |s| - 1 && s[i] == '*' == s[i+1] {
      assert s[i..][..2] == STARS;
      assert OccursAt(s, STARS, i);
    }
    if Find(s, STARS).Some? {
      var i := Find(s, STARS).value;
      assert s[i..][0] == '*' == s[i..][1];
    }
  }

  lemma StarredGrow(s: string, c: char)
    ensures Starred(s + [c]) <==> Starred(s) || (EndsInStar(s) && c == '*')
  {
    var t := s + [c];
    if i :| 0 <= i < |s| - 1 && s[i] == '*' == s[i+1] {
      assert t[i] == '*' == t[i+1];
    }
    if EndsInStar(s) && c == '*' {
      assert t[|s|-1] == '*' == t[|s|-1+1];
    }
  }

  /** Normalising neither makes nor removes two stars in a row. */
  lemma {:induction false} NormalizeKeepsStars(s: string, ws: Ws)
    ensures var (o, w) := Normalize(s, ws);
            && (Starred(o) <==> Starred(s))
            && (w.atStart ==> o == "")
            && (EndsInStar(s) <==> EndsInStar(o) && (w.atStart || !w.inSpace))
    decreases |s|
  {
    hide Starred;
    if s != "" {
      var t, c := s[..|s|-1], s[|s|-1];
      assert s == t + [c];
      NormalizeKeepsStars(t, ws);
      var (o, w) := Normalize(t, ws);
      StarredGrow(t, c);
      StarredGrow(o, c);
      StarredGrow(o, ' ');
      StarredGrow(o + " ", c);
      assert (o + " ") + [c] == o + (" " + [c]) && o + ("" + [c]) == o + [c] && o + "" == o;
    }
  }

  // ----- links

  const HTTP := "http://"
  const HTTPS := "https://"

  predicate IsPunctuation(c: char) {
    c == ')' || c == '.' || c == ',' || c == '!' || c == '?'
  }

  predicate StartsUrl(s: string) {
    HasPrefix(s, HTTP) || HasPrefix(s, HTTPS)
  }

  function UrlStart(p: string): Option<nat> {
    var http := Find(p, HTTP);
    var https := Find(p, HTTPS);
    if http.Some? && (https.None? || http.value < https.value) then http else https
  }

  /** How many characters come before the first whitespace. */
  function Run(s: string): (n: nat)
    ensures n <= |s| && (forall k :: 0 <= k < n ==> !IsSpace(s[k])) && (n < |s| ==> IsSpace(s[n]))
  {
    if s == "" || IsSpace(s[0]) then 0 else 1 + Run(s[1..])
  }

  function TrimPunctuation(s: string): (r: string)
    ensures r <= s
    ensures r != "" ==> !IsPunctuation(r[|r|-1])
    ensures forall k :: |r| <= k < |s| ==> IsPunctuation(s[k])
  {
    if s == "" || !IsPunctuation(s[|s|-1]) then s else TrimPunctuation(s[..|s|-1])
  }

  function UrlAt(s: string): (url: string)
    ensures url <= s
  {
    TrimPunctuation(s[..Run(s)])
  }

  /** A link never shrinks to nothing: trimming stops at the slashes of its scheme. */
  lemma UrlIsLong(s: string)
    requires StartsUrl(s)
    ensures |UrlAt(s)| >= 7 && StartsUrl(UrlAt(s))
  {
    var scheme := if HasPrefix(s, HTTP) then HTTP else HTTPS;
    var n := |scheme|;
    assert scheme[n-1] == '/' && forall k :: 0 <= k < n ==> s[k] == scheme[k];
    assert forall k :: 0 <= k < n ==> !IsSpace(scheme[k]);
    assert Run(s) >= n;
    var u := UrlAt(s);
    assert !IsPunctuation(s[..Run(s)][n-1]);
    assert u[..n] == scheme;
  }

  lemma UrlStartMeaning(p: string)
    ensures UrlStart(p).Some? ==> UrlStart(p).value <= |p| && StartsUrl(p[UrlStart(p).value..])
    ensures forall j :: 0 <= j <= |p| && (UrlStart(p).Some? ==> j < UrlStart(p).value) ==> !StartsUrl(p[j..])
  {
    forall j | 0 <= j <= |p| && StartsUrl(p[j..])
      ensures UrlStart(p).Some? && UrlStart(p).value <= j
    {
      assert OccursAt(p, HTTP, j) || OccursAt(p, HTTPS, j);
    }
  }

  datatype Tag = Emphasis | Link(url: string) | CodeTag | ParagraphTag | ItemOl | ItemUl | ListNumber

  /** A stretch of the text buffer and the tags applied to it. */
  datatype Segment = Segment(text: string, tags: set<Tag>)

  /** Inserting the empty string inserts nothing. */
  function Piece(text: string, tags: set<Tag>): seq<Segment> {
    if text == "" then [] else [Segment(text, tags)]
  }

  function TextOf(segs: seq<Segment>): string {
    if segs == [] then "" else TextOf(segs[..|segs|-1]) + segs[|segs|-1].text
  }

  lemma {:induction false} TextOfConcat(a: seq<Segment>, b: seq<Segment>)
    ensures TextOf(a + b) == TextOf(a) + TextOf(b)
  {
    if b == [] {
      assert a + b == a;
    } else {
      assert (a + b)[..|a + b| - 1] == a + b[..|b|-1];
      TextOfConcat(a, b[..|b|-1]);
    }
  }

  /** A part outside emphasis: plain text and links, in order. */
  function Chunk(p: string): seq<Segment>
    decreases |p|
  {
    UrlStartMeaning(p);
    match UrlStart(p)
    case None => Piece(p, {})
    case Some(i) =>
      UrlIsLong(p[i..]);
      var url := UrlAt(p[i..]);
      Piece(p[..i], {}) + [Segment(url, {Link(url)})] + Chunk(p[i + |url|..])
  }

  lemma ChunkWithoutUrl(p: string)
    requires UrlStart(p).None?
    ensures Chunk(p) == Piece(p, {})
  {
    hide StartsUrl, UrlStart, UrlAt;
  }

  /** One turn of the scan. */
  lemma ChunkStep(p: string) returns (i: nat, url: string, rest: string)
    requires UrlStart(p).Some?
    ensures UrlStart(p) == Some(i) && i <= |p| && url == UrlAt(p[i..]) && |url| >= 7 && StartsUrl(url)
    ensures i + |url| <= |p| && rest == p[i + |url|..] && p == p[..i] + url + rest
    ensures Chunk(p) == Piece(p[..i], {}) + [Segment(url, {Link(url)})] + Chunk(rest)
  {
    hide StartsUrl, IsSpace, UrlStart, UrlAt, Piece;
    UrlStartMeaning(p);
    i := UrlStart(p).value;
    UrlIsLong(p[i..]);
    url := UrlAt(p[i..]);
    rest := p[i + |url|..];
    assert p[i..] == url + p[i..][|url|..] && p[i..][|url|..] == rest;
  }

  /** The parts from number `j` on; odd ones are emphasised. */
  function Parts(parts: seq<string>, j: nat): seq<Segment>
    requires j <= |parts|
    decreases |parts| - j
  {
    if j == |parts| then []
    else (if j % 2 != 0 then Piece(parts[j], {Emphasis}) else Chunk(parts[j])) + Parts(parts, j + 1)
  }

  function Segments(text: string): seq<Segment> {
    Parts(Split(text), 0)
  }

  // ----- what the segmenter promises

  lemma PieceText(text: string, tags: set<Tag>)
    ensures TextOf(Piece(text, tags)) == text
  {
  }

  lemma {:induction false} ChunkText(p: string)
    ensures TextOf(Chunk(p)) == p
    decreases |p|
  {
    hide UrlAt, StartsUrl, UrlStart;
    match UrlStart(p)
    case None => PieceText(p, {});
    case Some(_) =>
      var i, url, rest := ChunkStep(p);
      ChunkText(rest);
      PieceText(p[..i], {});
      PieceText(url, {Link(url)});
      TextOfConcat(Piece(p[..i], {}), Piece(url, {Link(url)}));
      TextOfConcat(Piece(p[..i], {}) + Piece(url, {Link(url)}), Chunk(rest));
  }

  lemma {:induction false} PartsText(parts: seq<string>, j: nat)
    requires j <= |parts|
    ensures TextOf(Parts(parts, j)) == Concat(parts[j..])
    decreases |parts| - j
  {
    if j < |parts| {
      PartsText(parts, j + 1);
      ChunkText(parts[j]);
      PieceText(parts[j], {Emphasis});
      TextOfConcat(if j % 2 != 0 then Piece(parts[j], {Emphasis}) else Chunk(parts[j]), Parts(parts, j + 1));
      assert parts[j..][1..] == parts[j + 1..];
    }
  }

  /** Inserting a text conserves it: the segments concatenate to the text with every "**"
      separator removed, and with nothing else changed. */
  lemma SegmentsConserve(text: string)
    ensures TextOf(Segments(text)) == WithoutStars(text)
  {
    PartsText(Split(text), 0);
    SplitConserves(text);
    assert Split(text)[0..] == Split(text);
  }

  ghost predicate GoodLink(url: string) {
    StartsUrl(url) && (forall k :: 0 <= k < |url| ==> !IsSpace(url[k])) && !IsPunctuation(url[|url|-1])
  }

  /** What a segment may be: emphasised text, a link to its own text, or plain text that has no
      link in it. */
  ghost predicate GoodSegment(seg: Segment) {
    || seg.tags == {Emphasis}
    || (seg.tags == {Link(seg.text)} && GoodLink(seg.text))
    || (seg.tags == {} && forall j :: 0 <= j <= |seg.text| ==> !StartsUrl(seg.text[j..]))
  }

  lemma StartsUrlOfPrefix(s: string, t: string)
    requires t <= s && StartsUrl(t)
    ensures StartsUrl(s)
  {
  }

  lemma PlainPrefix(p: string, i: nat)
    requires i <= |p| && forall j :: 0 <= j < i ==> !StartsUrl(p[j..])
    ensures forall j :: 0 <= j <= i ==> !StartsUrl(p[..i][j..])
  {
    forall j | 0 <= j <= i && StartsUrl(p[..i][j..])
      ensures false
    {
      assert p[..i][j..] <= p[j..];
      StartsUrlOfPrefix(p[j..], p[..i][j..]);
    }
  }

  lemma LinkGood(s: string)
    requires StartsUrl(s)
    ensures GoodLink(UrlAt(s))
  {
    hide IsSpace, IsPunctuation, StartsUrl;
    UrlIsLong(s);
    var run := s[..Run(s)];
    assert forall k :: 0 <= k < |UrlAt(s)| ==> UrlAt(s)[k] == run[k] == s[k];
  }

  lemma {:induction false} ChunkGood(p: string)
    ensures forall seg :: seg in Chunk(p) ==> GoodSegment(seg)
    decreases |p|
  {
    hide StartsUrl, UrlStart, UrlAt, IsSpace;
    UrlStartMeaning(p);
    match UrlStart(p)
    case None =>
      assert p[..|p|] == p;
      PlainPrefix(p, |p|);
    case Some(_) =>
      var i, url, rest := ChunkStep(p);
      PlainPrefix(p, i);
      LinkGood(p[i..]);
      ChunkGood(rest);
      assert GoodSegment(Segment(p[..i], {}));
  }

  lemma EmphasisGood(text: string)
    ensures forall seg :: seg in Piece(text, {Emphasis}) ==> GoodSegment(seg)
  {
  }

  lemma {:induction false} PartsGood(parts: seq<string>, j: nat)
    requires j <= |parts|
    ensures forall seg :: seg in Parts(parts, j) ==> GoodSegment(seg)
    decreases |parts| - j
  {
    hide GoodSegment, Chunk;
    if j < |parts| {
      EmphasisGood(parts[j]);
      PartsGood(parts, j + 1);
      ChunkGood(parts[j]);
    }
  }

  /** Every link starts with a scheme, has no whitespace and does not end in punctuation; and no
      link is missed in the text that is left plain. */
  lemma SegmentsGood(text: string)
    ensures forall seg :: seg in Segments(text) ==> GoodSegment(seg)
  {
    PartsGood(Split(text), 0);
  }

  // ----- the buffer and the function that inserts into it

  class TextBuffer {
    var segments: seq<Segment>

    constructor ()
      ensures segments == []
    {
      segments := [];
    }

    method Insert(text: string, tags: set<Tag>)
      modifies this
      ensures segments == old(segments) + Piece(text, tags)
    {
      if text != "" {
        segments := segments + [Segment(text, tags)];
      }
    }
  }

  method InsertText(buffer: TextBuffer, text: string)
    modifies buffer
    ensures buffer.segments == old(buffer.segments) + Segments(text)
  {
    hide Chunk, Split;
    var parts := Split(text);
    ghost var s := buffer.segments;
    var j := 0;
    while j < |parts|
      invariant 0 <= j <= |parts|
      invariant buffer.segments + Parts(parts, j) == s + Parts(parts, 0)
    {
      ghost var before := buffer.segments;
      if j % 2 != 0 {
        buffer.Insert(parts[j], {Emphasis});
        assert before + (Piece(parts[j], {Emphasis}) + Parts(parts, j + 1)) == buffer.segments + Parts(parts, j + 1);
      } else {
        InsertChunk(buffer, parts[j]);
        assert before + (Chunk(parts[j]) + Parts(parts, j + 1)) == buffer.segments + Parts(parts, j + 1);
      }
      j := j + 1;
    }
  }

  /** The scan of one part: it terminates because every link takes at least seven characters. */
  method InsertChunk(buffer: TextBuffer, chunk: string)
    modifies buffer
    ensures buffer.segments == old(buffer.segments) + Chunk(chunk)
  {
    hide StartsUrl, UrlStart, UrlAt, Chunk;
    ghost var s := buffer.segments;
    var p := chunk;
    while p != ""
      invariant buffer.segments + Chunk(p) == s + Chunk(chunk)
      decreases |p|
    {
      ghost var before := buffer.segments;
      var start := UrlStart(p);
      if start.None? {
        ChunkWithoutUrl(p);
        buffer.Insert(p, {});
        return;
      }
      ghost var gi, gurl, grest := ChunkStep(p);
      var i := start.value;
      if i > 0 {
        buffer.Insert(p[..i], {});
      }
      var url := ScanUrl(p[i..]);
      buffer.Insert(url, {Link(url)});
      assert buffer.segments == before + (Piece(p[..i], {}) + [Segment(url, {Link(url)})]);
      p := p[i + |url|..];
    }
    NothingToInsert();
  }

  lemma NothingToInsert()
    ensures Chunk("") == []
  {
  }

  method ScanUrl(s: string) returns (url: string)
    ensures url == UrlAt(s)
  {
    var end := 0;
    while end < |s| && !IsSpace(s[end])
      invariant end <= |s| && forall k :: 0 <= k < end ==> !IsSpace(s[k])
    {
      end := end + 1;
    }
    assert end == Run(s);
    url := s[..end];
    while url != "" && IsPunctuation(url[|url|-1])
      invariant TrimPunctuation(url) == UrlAt(s)
      decreases |url|
    {
      url := url[..|url|-1];
    }
  }
}
