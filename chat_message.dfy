/** How a message is shown: a text part is cut into pieces by
    `content.split(/(```[\s\S]*?```)/g)`, each piece shown as a code block or a paragraph;
    image and file parts are shown as images or as a name chip. */
module ChatMessage {
  import opened Types
  import opened JsString

  /** A run of three backticks starts at index `i` of `s`. */
  predicate FenceAt(s: string, i: int) {
    0 <= i && i + 3 <= |s| && s[i] == '`' && s[i + 1] == '`' && s[i + 2] == '`'
  }

  /** The first fence starting at or after `from`. */
  function FindFence(s: string, from: nat): (r: Option<nat>)
    ensures r.Some? ==> from <= r.value && FenceAt(s, r.value)
    ensures r.Some? ==> forall k :: from <= k < r.value ==> !FenceAt(s, k)
    ensures r.None? ==> forall k :: from <= k ==> !FenceAt(s, k)
    decreases |s| - from
  {
    if from + 3 > |s| then None
    else if FenceAt(s, from) then Some(from)
    else FindFence(s, from + 1)
  }

  /** The lazy pattern ```` ```[\s\S]*?``` ```` tried at index `q` alone: it matches when a
      fence starts at `q` and another starts at `q + 3` or later, and it ends after the
      first such closing fence. The result is the end index of the match. */
  function MatchAt(s: string, q: nat): (e: Option<nat>)
    ensures e.Some? ==> && FenceAt(s, q) && q + 6 <= e.value <= |s| && FenceAt(s, e.value - 3)
                        && forall k :: q + 3 <= k < e.value - 3 ==> !FenceAt(s, k)
    ensures e.None? ==> !FenceAt(s, q) || forall k :: q + 3 <= k ==> !FenceAt(s, k)
  {
    if !FenceAt(s, q) then None
    else
      match FindFence(s, q + 3)
      case None => None
      case Some(j) => Some(j + 3)
  }

  /** The scan of `String.prototype.split` with a separator pattern that has one capturing
      group spanning the whole match: `p` is the end of the last match, `q` the index being
      tried. Text between matches and the matches themselves alternate in the result. */
  function SplitFrom(s: string, p: nat, q: nat): seq<string>
    requires p <= q <= |s|
    decreases |s| - q
  {
    if q == |s| then [s[p..]]
    else
      match MatchAt(s, q)
      case None => SplitFrom(s, p, q + 1)
      case Some(e) => [s[p..q], s[q..e]] + SplitFrom(s, e, e)
  }

  /** `content.split(/(```[\s\S]*?```)/g)`. */
  function SplitFences(content: string): seq<string> {
    SplitFrom(content, 0, 0)
  }

  function Concat(pieces: seq<string>): string
    decreases |pieces|
  {
    if pieces == [] then [] else pieces[0] + Concat(pieces[1..])
  }

  /** A captured piece: an opening fence, then the shortest text up to the next fence, then
      that fence. */
  predicate IsFencedBlock(piece: string) {
    && |piece| >= 6
    && FenceAt(piece, 0)
    && FenceAt(piece, |piece| - 3)
    && forall k :: 3 <= k < |piece| - 3 ==> !FenceAt(piece, k)
  }

  /** A piece between captures: it holds no fence followed later by another fence, so the
      pattern matches nowhere inside it. */
  predicate HasNoFencedBlock(piece: string) {
    forall i, j :: 0 <= i && i + 3 <= j && j + 3 <= |piece| ==> !(FenceAt(piece, i) && FenceAt(piece, j))
  }

  /** The pieces of a split: an odd number, captured blocks at the odd positions and the
      text between them at the even positions. */
  predicate WellSplit(pieces: seq<string>) {
    && |pieces| % 2 == 1
    && forall k :: 0 <= k < |pieces| ==>
         (k % 2 == 1 ==> IsFencedBlock(pieces[k])) && (k % 2 == 0 ==> HasNoFencedBlock(pieces[k]))
  }

  lemma FenceInSlice(s: string, a: nat, b: nat, i: int)
    requires a <= b <= |s|
    ensures FenceAt(s[a..b], i) <==> 0 <= i && a + i + 3 <= b && FenceAt(s, a + i)
  {
  }

  lemma {:induction false} SplitFromShape(s: string, p: nat, q: nat)
    requires p <= q <= |s|
    requires forall i :: p <= i < q ==> MatchAt(s, i).None?
    ensures WellSplit(SplitFrom(s, p, q))
    ensures Concat(SplitFrom(s, p, q)) == s[p..]
    decreases |s| - q
  {
    if q == |s| {
      NoMatchNoBlock(s, p, q);
      assert s[p..q] == s[p..];
    } else {
      match MatchAt(s, q)
      case None =>
        SplitFromShape(s, p, q + 1);
      case Some(e) =>
        SplitFromShape(s, e, e);
        NoMatchNoBlock(s, p, q);
        MatchIsBlock(s, q, e);
        var rest := SplitFrom(s, e, e);
        assert SplitFrom(s, p, q) == [s[p..q], s[q..e]] + rest;
        WellSplitCons(s[p..q], s[q..e], rest);
        ConcatCons(s[p..q], s[q..e], rest);
        assert s[p..] == s[p..q] + s[q..e] + s[e..];
    }
  }

  /** The text a successful match spans is a fenced block. */
  lemma MatchIsBlock(s: string, q: nat, e: nat)
    requires q < |s| && MatchAt(s, q) == Some(e)
    ensures IsFencedBlock(s[q..e])
  {
    var block := s[q..e];
    forall k | 3 <= k < |block| - 3 ensures !FenceAt(block, k) {
      FenceInSlice(s, q, e, k);
    }
    FenceInSlice(s, q, e, 0);
    FenceInSlice(s, q, e, |block| - 3);
  }

  lemma WellSplitCons(a: string, b: string, rest: seq<string>)
    requires HasNoFencedBlock(a) && IsFencedBlock(b) && WellSplit(rest)
    ensures WellSplit([a, b] + rest)
  {
    var ps := [a, b] + rest;
    forall k | 2 <= k < |ps| ensures ps[k] == rest[k - 2] && k % 2 == (k - 2) % 2 { }
  }

  lemma ConcatCons(a: string, b: string, rest: seq<string>)
    ensures Concat([a, b] + rest) == a + b + Concat(rest)
  {
    var ps := [a, b] + rest;
    assert ps[1..] == [b] + rest;
    assert ([b] + rest)[1..] == rest;
  }

  /** When the pattern matches nowhere in `[p, q)`, the text `s[p..q]` holds no fenced block. */
  lemma NoMatchNoBlock(s: string, p: nat, q: nat)
    requires p <= q <= |s|
    requires forall i :: p <= i < q ==> MatchAt(s, i).None?
    ensures HasNoFencedBlock(s[p..q])
  {
    forall i, j | 0 <= i && i + 3 <= j && j + 3 <= q - p
      ensures !(FenceAt(s[p..q], i) && FenceAt(s[p..q], j))
    {
      FenceInSlice(s, p, q, i);
      FenceInSlice(s, p, q, j);
      assert MatchAt(s, p + i).None?;
    }
  }

  /** The pieces lie in `s` from index `start` where the scan finds them: the pattern matches
      at no index inside a text piece, and each captured piece is the match that starts right
      after the text before it. */
  predicate LeftmostFrom(s: string, start: nat, pieces: seq<string>)
    decreases |pieces|
  {
    && |pieces| >= 1
    && (forall i :: start <= i < start + |pieces[0]| ==> MatchAt(s, i).None?)
    && (|pieces| > 1 ==>
          var q := start + |pieces[0]|;
          && |pieces| >= 3
          && MatchAt(s, q) == Some(q + |pieces[1]|)
          && LeftmostFrom(s, q + |pieces[1]|, pieces[2..]))
  }

  lemma {:induction false} SplitFromLeftmost(s: string, p: nat, q: nat)
    requires p <= q <= |s|
    requires forall i :: p <= i < q ==> MatchAt(s, i).None?
    ensures LeftmostFrom(s, p, SplitFrom(s, p, q))
    decreases |s| - q
  {
    if q < |s| {
      match MatchAt(s, q)
      case None =>
        SplitFromLeftmost(s, p, q + 1);
      case Some(e) =>
        SplitFromLeftmost(s, e, e);
        var rest := SplitFrom(s, e, e);
        var pieces := [s[p..q], s[q..e]] + rest;
        assert SplitFrom(s, p, q) == pieces;
        assert pieces[2..] == rest;
    }
  }

  /** The first of the pieces that rebuild `s[p..]` is the text right at `p`. */
  lemma ConcatSplit(s: string, p: nat, pieces: seq<string>)
    requires p <= |s| && |pieces| >= 1 && Concat(pieces) == s[p..]
    ensures p + |pieces[0]| <= |s|
    ensures pieces[0] == s[p..p + |pieces[0]|]
    ensures Concat(pieces[1..]) == s[p + |pieces[0]|..]
  {
    assert s[p..] == pieces[0] + Concat(pieces[1..]);
    assert s[p..][..|pieces[0]|] == pieces[0];
    assert s[p..][|pieces[0]|..] == Concat(pieces[1..]);
  }

  /** Pieces that lie where the scan finds them and reach the end of `s` are one text piece. */
  lemma LeftmostAtEnd(s: string, p: nat, pieces: seq<string>)
    requires p <= |s|
    requires LeftmostFrom(s, p, pieces) && Concat(pieces) == s[p..]
    requires |s| <= p + |pieces[0]|
    ensures pieces == [s[p..]]
  {
    ConcatSplit(s, p, pieces);
    assert !FenceAt(s, |s|);
    assert |pieces| == 1;
    assert pieces[0] == s[p..];
  }

  /** When the first piece stops short of the end, the second piece follows it and the rest
      rebuild what is left. */
  lemma ConcatSplitTwo(s: string, p: nat, q: nat, pieces: seq<string>)
    requires p <= |s| && |pieces| >= 1 && Concat(pieces) == s[p..]
    requires q == p + |pieces[0]| < |s|
    ensures |pieces| >= 2 && q + |pieces[1]| <= |s|
    ensures pieces[0] == s[p..q]
    ensures pieces[1] == s[q..q + |pieces[1]|]
    ensures Concat(pieces[2..]) == s[q + |pieces[1]|..]
  {
    ConcatSplit(s, p, pieces);
    var tail := pieces[1..];
    assert Concat(tail) == s[q..] != [];
    ConcatSplit(s, q, tail);
    assert tail[0] == pieces[1] && tail[1..] == pieces[2..];
  }

  /** Across indices where the pattern does not match, the scan only moves on. */
  lemma {:induction false} SkipText(s: string, p: nat, q: nat, r: nat)
    requires p <= q <= r <= |s|
    requires forall i :: q <= i < r ==> MatchAt(s, i).None?
    ensures SplitFrom(s, p, q) == SplitFrom(s, p, r)
    decreases r - q
  {
    if q < r {
      SkipText(s, p, q + 1, r);
    }
  }

  /** One step of the scan at an index where the pattern matches up to `e`. */
  lemma SplitFromAtMatch(s: string, p: nat, q: nat, e: nat)
    requires p <= q < |s| && MatchAt(s, q) == Some(e)
    ensures e <= |s|
    ensures SplitFrom(s, p, q) == [s[p..q], s[q..e]] + SplitFrom(s, e, e)
  {
  }

  /** What lying where the scan finds them says beyond the first text piece. */
  lemma LeftmostNext(s: string, p: nat, q: nat, pieces: seq<string>)
    requires LeftmostFrom(s, p, pieces) && |pieces| >= 2 && q == p + |pieces[0]|
    ensures |pieces| >= 3
    ensures MatchAt(s, q) == Some(q + |pieces[1]|)
    ensures LeftmostFrom(s, q + |pieces[1]|, pieces[2..])
  {
  }

  /** A text piece, the match after it and the scan's pieces after the match are the scan's
      pieces from the start of the text. */
  lemma SplitFromJoin(s: string, p: nat, q: nat, pieces: seq<string>)
    requires p <= q < |s| && |pieces| >= 2
    requires MatchAt(s, q) == Some(q + |pieces[1]|)
    requires pieces[0] == s[p..q] && pieces[1] == s[q..q + |pieces[1]|]
    requires SplitFrom(s, q + |pieces[1]|, q + |pieces[1]|) == pieces[2..]
    ensures SplitFrom(s, p, q) == pieces
  {
    var e := q + |pieces[1]|;
    SplitFromAtMatch(s, p, q, e);
    assert pieces == [pieces[0], pieces[1]] + pieces[2..];
  }

  /** The scan is the only way to cut `s[p..]` into pieces that lie where it finds them. */
  lemma {:induction false} SplitUnique(s: string, p: nat, pieces: seq<string>)
    requires p <= |s|
    requires LeftmostFrom(s, p, pieces) && Concat(pieces) == s[p..]
    ensures SplitFrom(s, p, p) == pieces
    decreases |pieces|
  {
    ConcatSplit(s, p, pieces);
    var q := p + |pieces[0]|;
    SkipText(s, p, p, q);
    if q == |s| {
      LeftmostAtEnd(s, p, pieces);
    } else {
      ConcatSplitTwo(s, p, q, pieces);
      LeftmostNext(s, p, q, pieces);
      var e := q + |pieces[1]|;
      SplitUnique(s, e, pieces[2..]);
      SplitFromJoin(s, p, q, pieces);
    }
  }

  /** Splitting loses nothing and finds every block where the scan finds it: concatenating the
      pieces gives the content back, the captured pieces are exactly fenced blocks, the
      pieces between them contain none, and each block starts at the first index where the
      pattern matches. */
  lemma SplitFencesSpec(content: string)
    ensures Concat(SplitFences(content)) == content
    ensures WellSplit(SplitFences(content))
    ensures LeftmostFrom(content, 0, SplitFences(content))
  {
    SplitFromShape(content, 0, 0);
    SplitFromLeftmost(content, 0, 0);
  }

  /** Those properties pin the split down: any pieces that rebuild the content and lie where
      the scan finds them are the split. */
  lemma SplitFencesUnique(content: string, pieces: seq<string>)
    requires Concat(pieces) == content && LeftmostFrom(content, 0, pieces)
    ensures pieces == SplitFences(content)
  {
    assert content[0..] == content;
    SplitUnique(content, 0, pieces);
  }

  /** Content without any run of three backticks is one piece: itself. */
  lemma {:induction false} NoFenceOnePiece(s: string, p: nat, q: nat)
    requires p <= q <= |s|
    requires forall k :: q <= k ==> !FenceAt(s, k)
    ensures SplitFrom(s, p, q) == [s[p..]]
    decreases |s| - q
  {
    if q < |s| {
      NoFenceOnePiece(s, p, q + 1);
    }
  }

  /** What a piece is shown as. */
  datatype Block = CodeBlock(code: string) | Paragraph(text: string)

  /** A piece that starts and ends with three backticks is code: the piece without three
      characters at each end, trimmed. Every other piece is shown as it is. */
  function RenderPiece(piece: string): Block {
    if StartsWith(piece, "```") && EndsWith(piece, "```") then CodeBlock(Trim(SliceInner3(piece)))
    else Paragraph(piece)
  }

  /** `FormattedText`: the blocks, one per piece, in order. */
  function FormattedText(content: string): (blocks: seq<Block>)
    ensures |blocks| == |SplitFences(content)|
  {
    var pieces := SplitFences(content);
    seq(|pieces|, k requires 0 <= k < |pieces| => RenderPiece(pieces[k]))
  }

  lemma FenceStarts(piece: string)
    requires FenceAt(piece, 0)
    ensures StartsWith(piece, "```")
  {
    assert piece[..3] == "```";
  }

  lemma FenceEnds(piece: string)
    requires |piece| >= 3 && FenceAt(piece, |piece| - 3)
    ensures EndsWith(piece, "```")
  {
    assert piece[|piece| - 3..] == "```";
  }

  /** A fenced block is shown as code: its inner text, which holds no run of three
      backticks, trimmed. */
  lemma FencedBlockIsCode(piece: string)
    requires IsFencedBlock(piece)
    ensures var inner := piece[3..|piece| - 3];
      && piece == "```" + inner + "```"
      && (forall i :: !FenceAt(inner, i))
      && RenderPiece(piece) == CodeBlock(Trim(inner))
  {
    var inner := piece[3..|piece| - 3];
    FenceStarts(piece);
    FenceEnds(piece);
    assert piece == piece[..3] + inner + piece[|piece| - 3..];
    forall i ensures !FenceAt(inner, i) {
      FenceInSlice(piece, 3, |piece| - 3, i);
    }
  }

  /** Every captured block is shown as code: its inner text, which holds no run of three
      backticks, trimmed. */
  lemma CapturedPiecesAreCode(content: string, k: nat)
    requires k < |SplitFences(content)| && k % 2 == 1
    ensures var piece := SplitFences(content)[k];
      && |piece| >= 6
      && var inner := piece[3..|piece| - 3];
         && piece == "```" + inner + "```"
         && (forall i :: !FenceAt(inner, i))
         && FormattedText(content)[k] == CodeBlock(Trim(inner))
  {
    var pieces := SplitFences(content);
    SplitFencesSpec(content);
    OddPieceIsBlock(pieces, k);
    FencedBlockIsCode(pieces[k]);
    BlockOfPiece(content, k);
  }

  /** The k-th block is the rendering of the k-th piece. */
  lemma BlockOfPiece(content: string, k: nat)
    requires k < |SplitFences(content)|
    ensures FormattedText(content)[k] == RenderPiece(SplitFences(content)[k])
  {
  }

  lemma OddPieceIsBlock(pieces: seq<string>, k: nat)
    requires WellSplit(pieces) && k < |pieces| && k % 2 == 1
    ensures IsFencedBlock(pieces[k])
  {
  }

  lemma StartsWithFence(piece: string)
    requires StartsWith(piece, "```")
    ensures FenceAt(piece, 0)
  {
    assert piece[..3] == "```";
    assert piece[0] == piece[..3][0] && piece[1] == piece[..3][1] && piece[2] == piece[..3][2];
  }

  lemma EndsWithFence(piece: string)
    requires EndsWith(piece, "```")
    ensures FenceAt(piece, |piece| - 3)
  {
    var j := |piece| - 3;
    assert piece[j..] == "```";
    assert piece[j] == piece[j..][0] && piece[j + 1] == piece[j..][1] && piece[j + 2] == piece[j..][2];
  }

  /** Three to five backticks and nothing else. */
  predicate LoneBacktickRun(piece: string) {
    3 <= |piece| <= 5 && forall i :: 0 <= i < |piece| ==> piece[i] == '`'
  }

  /** Text holding no fenced block starts and ends with a fence exactly when it is a lone run
      of three to five backticks. */
  lemma FencedAtBothEnds(piece: string)
    requires HasNoFencedBlock(piece)
    ensures StartsWith(piece, "```") && EndsWith(piece, "```") <==> LoneBacktickRun(piece)
  {
    if StartsWith(piece, "```") && EndsWith(piece, "```") {
      StartsWithFence(piece);
      EndsWithFence(piece);
      assert 0 + 3 <= |piece| - 3 ==> !(FenceAt(piece, 0) && FenceAt(piece, |piece| - 3));
      forall i | 0 <= i < |piece| ensures piece[i] == '`' {
        if i >= 3 {
          assert piece[i] == piece[|piece| - 3 + (i - (|piece| - 3))];
        }
      }
    }
    if LoneBacktickRun(piece) {
      FenceStarts(piece);
      FenceEnds(piece);
    }
  }

  /** Every piece between captures is shown verbatim as a paragraph, except a lone unclosed
      run of three to five backticks, which starts and ends with a fence and so is shown as
      an empty code block. */
  lemma PlainPiecesAreVerbatim(content: string, k: nat)
    requires k < |SplitFences(content)| && k % 2 == 0
    ensures var piece := SplitFences(content)[k];
      FormattedText(content)[k] == if LoneBacktickRun(piece) then CodeBlock([]) else Paragraph(piece)
  {
    SplitFencesSpec(content);
    var piece := SplitFences(content)[k];
    assert HasNoFencedBlock(piece);
    FencedAtBothEnds(piece);
    BlockOfPiece(content, k);
    if LoneBacktickRun(piece) {
      assert SliceInner3(piece) == [];
      assert Trim([]) == [];
    }
  }

  /** Text with no run of three backticks is shown as one paragraph holding all of it. */
  lemma PlainTextOneParagraph(content: string)
    requires forall k :: !FenceAt(content, k)
    ensures FormattedText(content) == [Paragraph(content)]
  {
    NoFenceOnePiece(content, 0, 0);
    assert content[0..] == content;
    if |content| >= 3 {
      assert !FenceAt(content, 0);
      assert content[0] == content[..3][0] && content[1] == content[..3][1] && content[2] == content[..3][2];
      assert content[..3] != "```";
    }
  }

  /** "a```x```b" splits into the text before, the block and the text after. */
  lemma FencedSplitExample()
    ensures SplitFences("a```x```b") == ["a", "```x```", "b"]
  {
    var s := "a```x```b";
    assert !FenceAt(s, 0) && FenceAt(s, 1) && !FenceAt(s, 4) && FenceAt(s, 5);
    assert FindFence(s, 4) == Some(5);
    assert MatchAt(s, 0) == None && MatchAt(s, 1) == Some(8) && MatchAt(s, 8) == None;
    assert SplitFrom(s, 8, 8) == ["b"];
    assert SplitFrom(s, 0, 1) == [s[0..1], s[1..8]] + SplitFrom(s, 8, 8);
    assert s[0..1] == "a" && s[1..8] == "```x```";
  }

  /** The block "```x```" is shown as the code "x". */
  lemma CodePieceExample()
    ensures RenderPiece("```x```") == CodeBlock("x")
  {
    var piece := "```x```";
    assert piece[..3] == "```" && piece[4..] == "```";
    assert SliceInner3(piece) == piece[3..4] == "x";
    assert !IsWhitespace('x');
    assert TrimEnd("x") == "x" && TrimStart("x") == "x";
  }

  lemma FencedExample()
    ensures FormattedText("a```x```b") == [Paragraph("a"), CodeBlock("x"), Paragraph("b")]
  {
    FencedSplitExample();
    CodePieceExample();
    assert RenderPiece("a") == Paragraph("a") && RenderPiece("b") == Paragraph("b");
    BlockOfPiece("a```x```b", 0);
    BlockOfPiece("a```x```b", 1);
    BlockOfPiece("a```x```b", 2);
  }

  /** A lone, unclosed fence is shown as an empty code block. */
  lemma LoneFenceExample()
    ensures FormattedText("```") == [CodeBlock([])]
  {
    assert MatchAt("```", 0) == None;
    assert SplitFences("```") == ["```"];
    assert "```"[..3] == "```";
  }

  /** What a message part is shown as. */
  datatype View = TextView(blocks: seq<Block>) | ImageView(src: string, alt: string) | FileChip(name: string)

  /** `PartRenderer`. */
  function RenderPart(part: MessagePart): View {
    match part
    case TextPart(content) => TextView(FormattedText(content))
    case ImagePart(url, alt) =>
      ImageView(url, if alt == None || alt == Some([]) then "generated image" else alt.value)
    case FilePart(name, mimeType, url) =>
      if StartsWith(mimeType, "image/") then ImageView(url, name) else FileChip(name)
  }

  /** The parts of a message, shown in list order. */
  function RenderMessage(m: Message): (views: seq<View>)
    ensures |views| == |m.parts|
  {
    seq(|m.parts|, k requires 0 <= k < |m.parts| => RenderPart(m.parts[k]))
  }

  /** Parts are shown in list order: the views of `a + b` are the views of `a` followed by
      those of `b`, and the k-th view depends on the k-th part alone. */
  lemma RenderInListOrder(r: Role, a: seq<MessagePart>, b: seq<MessagePart>)
    ensures RenderMessage(Message(r, a + b)) == RenderMessage(Message(r, a)) + RenderMessage(Message(r, b))
    ensures forall k :: 0 <= k < |a| ==> RenderMessage(Message(r, a))[k] == RenderPart(a[k])
  {
    var whole := RenderMessage(Message(r, a + b));
    var front, back := RenderMessage(Message(r, a)), RenderMessage(Message(r, b));
    forall k | 0 <= k < |whole| ensures whole[k] == (front + back)[k] {
      if k >= |a| {
        assert (a + b)[k] == b[k - |a|];
      }
    }
  }

  /** An image part without a usable alt text is shown with "generated image"; any other
      alt text is shown as it is. */
  lemma ImageAltText(url: string, alt: Option<string>)
    ensures RenderPart(ImagePart(url, alt)).src == url
    ensures RenderPart(ImagePart(url, alt)).alt == if alt.Some? && alt.value != [] then alt.value else "generated image"
  {
  }

  /** A file part is shown as an image captioned with its name exactly when its MIME type is
      an image type; otherwise as a chip with its name. */
  lemma FilePartView(name: string, mimeType: string, url: string)
    ensures RenderPart(FilePart(name, mimeType, url)).ImageView? <==> StartsWith(mimeType, "image/")
    ensures RenderPart(FilePart(name, mimeType, url)) in {ImageView(url, name), FileChip(name)}
  {
  }
}
