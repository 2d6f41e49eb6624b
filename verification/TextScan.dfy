/** A left-to-right scan that rewrites some of the matches of a pattern in a text, in place.

    The pattern and the rule that says what becomes of a match are parameters.  After a match that is
    kept, the scan resumes at its old position plus the length of the match, which can be before the
    match's end; after a match that is rewritten it resumes behind the replacement. */
module TextScan {
  import opened Wrappers

  datatype Hit = Hit(start: nat, len: nat)

  /** Keep a match, or put a text in its place; `clamp` pulls an index at the end of the text back by one. */
  datatype Action = Keep | Put(text: string, clamp: bool)

  type Pattern = string -> Option<Hit>
  type Rule = string -> Action

  predicate IsSpace(c: char) { c == ' ' || ('\t' <= c <= '\r') }

  ghost predicate Begins(find: Pattern, s: string, i: nat) {
    i < |s| && find(s[i..]).Some? && find(s[i..]).value.start == 0
  }

  /** Matches are the leftmost ones, have three characters or more, and end at the first white space. */
  ghost predicate LawfulOn(find: Pattern, s: string) {
    && (find(s).Some? ==>
          var h := find(s).value;
          && h.len >= 3 && h.start + h.len <= |s|
          && find(s[h.start..]) == Some(Hit(0, h.len))
          && forall j :: h.start <= j < |s| && IsSpace(s[j]) ==> h.start + h.len <= j)
    && (forall i :: Begins(find, s, i) ==> find(s).Some? && find(s).value.start <= i)
  }

  ghost predicate Lawful(find: Pattern, rule: Rule) {
    && (forall s :: LawfulOn(find, s))
    && (forall s :: s != "" && rule(s).Put? ==> rule(s).text != "")
  }

  // ---------------------------------------------------------------- what a whole scan rewrites

  /** The match at [start, end) of the original text and what replaces it. */
  datatype Piece = Piece(start: nat, end: nat, replacement: string)

  datatype Step = Finished | Passed(next: nat) | Found(piece: Piece)

  /** What one search from pos leads to; a hit that does not fit is no hit. */
  ghost function ScanStep(find: Pattern, rule: Rule, text: string, pos: nat): (r: Step)
    requires pos <= |text|
    ensures r.Passed? ==> pos < r.next <= |text|
    ensures r.Found? ==> pos <= r.piece.start < r.piece.end <= |text|
  {
    var hit := find(text[pos..]);
    if hit.None? || hit.value.len == 0 || pos + hit.value.start + hit.value.len > |text| then Finished
    else
      var start, end := pos + hit.value.start, pos + hit.value.start + hit.value.len;
      var action := rule(text[start..end]);
      if action.Keep? then Passed(pos + hit.value.len) else Found(Piece(start, end, action.text))
  }

  /** The pieces rewritten by a scan of `text` from pos. */
  ghost function Pieces(find: Pattern, rule: Rule, text: string, pos: nat): seq<Piece>
    requires pos <= |text|
    decreases |text| - pos
  {
    match ScanStep(find, rule, text, pos)
    case Finished => []
    case Passed(next) => Pieces(find, rule, text, next)
    case Found(piece) => [piece] + Pieces(find, rule, text, piece.end)
  }

  /** Pieces lie one after another, without overlap, from pos on. */
  predicate InOrder(text: string, pos: nat, pieces: seq<Piece>)
    decreases |pieces|
  {
    pieces == [] ||
    (pos <= pieces[0].start < pieces[0].end <= |text| && InOrder(text, pieces[0].end, pieces[1..]))
  }

  /** The text from pos on with the pieces put in and everything between them copied. */
  function Render(text: string, pos: nat, pieces: seq<Piece>): string
    requires pos <= |text| && InOrder(text, pos, pieces)
    decreases |pieces|
  {
    if pieces == [] then text[pos..]
    else
      text[pos..pieces[0].start] + pieces[0].replacement + Render(text, pieces[0].end, pieces[1..])
  }

  lemma {:induction false} PiecesInOrder(find: Pattern, rule: Rule, text: string, from: nat, pos: nat)
    requires from <= pos <= |text|
    ensures InOrder(text, from, Pieces(find, rule, text, pos))
    decreases |text| - pos
  {
    match ScanStep(find, rule, text, pos)
    case Finished =>
    case Passed(next) =>
      PiecesInOrder(find, rule, text, from, next);
    case Found(piece) =>
      PiecesInOrder(find, rule, text, piece.end, piece.end);
      assert Pieces(find, rule, text, pos)[1..] == Pieces(find, rule, text, piece.end);
  }

  /** The result of a full scan. */
  ghost function Rewritten(find: Pattern, rule: Rule, text: string): string
  {
    PiecesInOrder(find, rule, text, 0, 0);
    Render(text, 0, Pieces(find, rule, text, 0))
  }

  /** A piece is a match of the text, replaced as the rule says for that very match. */
  ghost predicate Genuine(find: Pattern, rule: Rule, text: string, p: Piece) {
    && p.start < p.end <= |text| && find(text[p.start..]) == Some(Hit(0, p.end - p.start))
    && rule(text[p.start..p.end]).Put? && p.replacement == rule(text[p.start..p.end]).text
  }

  lemma FoundGenuine(find: Pattern, rule: Rule, text: string, pos: nat)
    requires Lawful(find, rule) && pos <= |text| && ScanStep(find, rule, text, pos).Found?
    ensures Genuine(find, rule, text, ScanStep(find, rule, text, pos).piece)
  {
    assert LawfulOn(find, text[pos..]);
    var h := find(text[pos..]).value;
    assert text[pos..][h.start..] == text[pos + h.start..];
  }

  /** Only matches are rewritten, each by its own rule. */
  lemma {:induction false} PiecesGenuine(find: Pattern, rule: Rule, text: string, pos: nat, p: Piece)
    requires Lawful(find, rule) && pos <= |text| && p in Pieces(find, rule, text, pos)
    ensures Genuine(find, rule, text, p)
    decreases |text| - pos
  {
    match ScanStep(find, rule, text, pos)
    case Passed(next) => PiecesGenuine(find, rule, text, next, p);
    case Found(piece) =>
      FoundGenuine(find, rule, text, pos);
      if p != piece {
        PiecesGenuine(find, rule, text, piece.end, p);
      }
  }

  /** The pattern matches at s, and nowhere earlier in the same unbroken run of text. */
  ghost predicate FirstOfItsWord(find: Pattern, text: string, s: nat) {
    && Begins(find, text, s)
    && forall i :: 0 <= i < s && Begins(find, text, i) ==> exists j :: i <= j < s && IsSpace(text[j])
  }

  ghost predicate MustRewrite(find: Pattern, rule: Rule, text: string, s: nat)
    requires Begins(find, text, s)
  {
    LawfulOn(find, text[s..]) && rule(text[s..][..find(text[s..]).value.len]).Put?
  }

  /** A scan standing at or before such a position examines it or stops short of it. */
  lemma StepDoesNotOvershoot(find: Pattern, rule: Rule, text: string, pos: nat, s: nat)
    requires Lawful(find, rule) && pos <= s && FirstOfItsWord(find, text, s)
    requires MustRewrite(find, rule, text, s)
    ensures var step := ScanStep(find, rule, text, pos);
            !step.Finished? && (step.Passed? ==> step.next <= s) &&
            (step.Found? ==> step.piece.start == s || step.piece.end <= s)
  {
    var rest := text[pos..];
    assert LawfulOn(find, rest) && LawfulOn(find, text[s..]);
    assert rest[s - pos..] == text[s..];
    assert Begins(find, rest, s - pos);
    var h := find(rest).value;
    var start := pos + h.start;
    assert rest[h.start..] == text[start..];
    assert text[start..start + h.len] == rest[h.start..h.start + h.len];
    if start < s {
      assert Begins(find, text, start);
      var j :| start <= j < s && IsSpace(text[j]);
      assert rest[j - pos] == text[j];
    } else {
      assert text[s..][..h.len] == text[s..s + h.len];
    }
  }

  /** Nothing escapes: wherever a match begins that the rule rewrites, and that is the first of its
      unbroken run of text, it is one of the rewritten pieces, although the scan may resume before or
      inside a match it has kept. */
  lemma {:induction false} EveryMatchExamined(find: Pattern, rule: Rule, text: string, pos: nat, s: nat)
    requires Lawful(find, rule) && pos <= s && FirstOfItsWord(find, text, s)
    requires MustRewrite(find, rule, text, s)
    ensures exists p :: p in Pieces(find, rule, text, pos) && p.start == s && Genuine(find, rule, text, p)
    decreases |text| - pos
  {
    StepDoesNotOvershoot(find, rule, text, pos, s);
    match ScanStep(find, rule, text, pos)
    case Passed(next) =>
      EveryMatchExamined(find, rule, text, next, s);
    case Found(piece) =>
      FoundGenuine(find, rule, text, pos);
      if piece.start == s {
        assert piece in Pieces(find, rule, text, pos);
      } else {
        EveryMatchExamined(find, rule, text, piece.end, s);
        var p :| p in Pieces(find, rule, text, piece.end) && p.start == s && Genuine(find, rule, text, p);
        assert p in Pieces(find, rule, text, pos);
      }
  }

  /** A text in which nothing needs rewriting comes back as it was. */
  lemma CleanTextUntouched(find: Pattern, rule: Rule, text: string)
    requires Lawful(find, rule)
    requires forall p :: !Genuine(find, rule, text, p)
    ensures Rewritten(find, rule, text) == text
  {
    var pieces := Pieces(find, rule, text, 0);
    if pieces != [] {
      PiecesGenuine(find, rule, text, 0, pieces[0]);
    }
    assert text[0..] == text;
  }

  // ---------------------------------------------------------------- the loop

  /** `done` stands for text[..k], and the scan of the original is at pos. */
  ghost predicate Progress(find: Pattern, rule: Rule, text: string, done: string, k: nat, pos: nat)
  {
    && k <= pos <= |text| && InOrder(text, k, Pieces(find, rule, text, pos))
    && done + Render(text, k, Pieces(find, rule, text, pos)) == Rewritten(find, rule, text)
  }

  lemma FoundProgress(find: Pattern, rule: Rule, text: string, done: string, k: nat, pos: nat)
    requires Progress(find, rule, text, done, k, pos)
    requires ScanStep(find, rule, text, pos).Found?
    ensures var p := ScanStep(find, rule, text, pos).piece;
            Progress(find, rule, text, done + text[k..p.start] + p.replacement, p.end, p.end)
  {
    var p := ScanStep(find, rule, text, pos).piece;
    assert Pieces(find, rule, text, pos)[1..] == Pieces(find, rule, text, p.end);
    var tail := Render(text, p.end, Pieces(find, rule, text, p.end));
    assert done + (text[k..p.start] + p.replacement + tail) == (done + text[k..p.start] + p.replacement) + tail;
  }

  /** The text beyond the index is the original beyond pos; or the original is used up and at most
      one character is left. */
  ghost predicate Aligned(redacted: string, index: nat, text: string, k: nat, pos: nat) {
    && index <= |redacted| && pos <= |text|
    && (redacted[index..] == text[pos..] || (|redacted| - index <= 1 && k == pos == |text|))
  }

  lemma SliceOfSlice(s: string, a: nat, b: nat, i: nat, j: nat)
    requires a <= b <= |s| && i <= j <= b - a
    ensures s[a..b][i..j] == s[a + i..a + j]
  {
    var u, v := s[a..b][i..j], s[a + i..a + j];
    assert |u| == |v| == j - i;
    forall k | 0 <= k < j - i ensures u[k] == v[k] {
      assert u[k] == s[a..b][i + k] == s[a + (i + k)];
      assert v[k] == s[(a + i) + k];
    }
  }

  lemma SliceOfTail(s: string, a: nat, i: nat, j: nat)
    requires a <= |s| && i <= j <= |s| - a
    ensures s[a..][i..j] == s[a + i..a + j]
  {
    assert s[a..] == s[a..|s|];
    SliceOfSlice(s, a, |s|, i, j);
  }

  lemma AlignedAfter(redacted: string, index: nat, text: string, pos: nat, n: nat)
    requires index <= |redacted| && pos <= |text| && redacted[index..] == text[pos..] && index + n <= |redacted|
    ensures pos + n <= |text| && redacted[index + n..] == text[pos + n..]
  {
    assert |redacted| - index == |redacted[index..]| == |text[pos..]| == |text| - pos;
    assert redacted[index..][n..] == redacted[index + n..];
    assert text[pos..][n..] == text[pos + n..];
  }

  /** The loop's search sees what a search of the original from pos sees. */
  lemma SameStep(find: Pattern, rule: Rule, redacted: string, index: nat, text: string, k: nat, pos: nat)
    requires Lawful(find, rule) && Aligned(redacted, index, text, k, pos) && find(redacted[index..]).Some?
    ensures redacted[index..] == text[pos..] && |redacted| - index == |text| - pos
    ensures var h := find(redacted[index..]).value;
            && h.len >= 3 && index + h.start + h.len <= |redacted|
            && var action := rule(redacted[index + h.start..index + h.start + h.len]);
               ScanStep(find, rule, text, pos) ==
               if action.Keep? then Passed(pos + h.len)
               else Found(Piece(pos + h.start, pos + h.start + h.len, action.text))
  {
    var rest := redacted[index..];
    assert LawfulOn(find, rest);
    assert |rest| == |redacted| - index;
    assert rest == text[pos..];
    assert |text[pos..]| == |text| - pos;
    var h := find(rest).value;
    SliceOfTail(redacted, index, h.start, h.start + h.len);
    SliceOfTail(text, pos, h.start, h.start + h.len);
  }

  lemma CutAndPaste(redacted: string, done: string, text: string, k: nat, index: nat, pos: nat, h: Hit)
    requires k <= pos <= |text| && redacted == done + text[k..]
    requires index + h.start + h.len <= |redacted| && redacted[index..] == text[pos..]
    requires |redacted| - index == |text| - pos
    ensures var start, end := pos + h.start, pos + h.start + h.len;
            && end <= |text|
            && redacted[..index + h.start] == done + text[k..start]
            && redacted[index + h.start + h.len..] == text[end..]
  {
    assert |redacted| == |done| + |text| - k;
    AlignedAfter(redacted, index, text, pos, h.start + h.len);
  }

  lemma NoMoreMatches(find: Pattern, rule: Rule, text: string, redacted: string, index: nat, done: string, k: nat,
                      pos: nat)
    requires Lawful(find, rule) && Progress(find, rule, text, done, k, pos) && redacted == done + text[k..]
    requires Aligned(redacted, index, text, k, pos) && find(redacted[index..]) == None
    ensures redacted == Rewritten(find, rule, text)
  {
    if k == pos == |text| {
      assert LawfulOn(find, text[pos..]);
    }
  }

  /** Rewriting one match: the new text, and where the scan resumes. */
  method Splice(redacted: string, start: nat, end: nat, put: Action) returns (r: string, index: nat)
    requires start <= end <= |redacted| && put.Put? && put.text != ""
    ensures r == redacted[..start] + put.text + redacted[end..]
    ensures index == if put.clamp && end == |redacted| then |r| - 1 else start + |put.text|
    ensures index <= |r|
  {
    var t := redacted[..start] + put.text;
    index := |t|;
    if end < |redacted| {
      t := t + redacted[end..];
    }
    r := t;
    if put.clamp && index >= |r| {
      index := |r| - 1;
    }
  }

  ghost predicate Spliced(redacted: string, index: nat, h: Hit, put: Action, r: string, index': nat)
    requires index + h.start + h.len <= |redacted| && put.Put?
  {
    && r == redacted[..index + h.start] + put.text + redacted[index + h.start + h.len..]
    && index' == if put.clamp && index + h.start + h.len == |redacted| then |r| - 1 else index + h.start + |put.text|
  }

  lemma SplicedText(redacted: string, done: string, text: string, k: nat, index: nat, pos: nat, h: Hit, put: Action,
                    r: string, index': nat)
    requires k <= pos <= |text| && redacted == done + text[k..]
    requires index + h.start + h.len <= |redacted| && redacted[index..] == text[pos..] && h.len >= 3
    requires |redacted| - index == |text| - pos && put.Put? && put.text != ""
    requires Spliced(redacted, index, h, put, r, index')
    ensures index' <= |r| && |r| - index' < |redacted| - index
    ensures var end := pos + h.start + h.len;
            && end <= |text|
            && r == (done + text[k..pos + h.start] + put.text) + text[end..]
            && Aligned(r, index', text, end, end)
  {
    CutAndPaste(redacted, done, text, k, index, pos, h);
    var front := redacted[..index + h.start] + put.text;
    assert |front| == index + h.start + |put.text|;
    assert r == front + redacted[index + h.start + h.len..];
    assert r[|front|..] == redacted[index + h.start + h.len..];
  }

  /** Where the loop stands: its text, its index, and what they mean for the original. */
  datatype Place = Place(redacted: string, index: nat, done: string, k: nat, pos: nat)

  ghost predicate Standing(find: Pattern, rule: Rule, text: string, at: Place)
  {
    && Progress(find, rule, text, at.done, at.k, at.pos)
    && at.redacted == at.done + text[at.k..]
    && Aligned(at.redacted, at.index, text, at.k, at.pos)
  }

  lemma KeepStands(find: Pattern, rule: Rule, text: string, at: Place) returns (next: Place)
    requires Lawful(find, rule) && Standing(find, rule, text, at) && find(at.redacted[at.index..]).Some?
    requires ScanStep(find, rule, text, at.pos).Passed?
    ensures next.redacted == at.redacted && next.index == at.index + find(at.redacted[at.index..]).value.len
    ensures Standing(find, rule, text, next)
  {
    var h := find(at.redacted[at.index..]).value;
    SameStep(find, rule, at.redacted, at.index, text, at.k, at.pos);
    PiecesInOrder(find, rule, text, at.k, at.pos + h.len);
    AlignedAfter(at.redacted, at.index, text, at.pos, h.len);
    next := at.(index := at.index + h.len, pos := at.pos + h.len);
  }

  ghost function PlaceAfter(text: string, at: Place, p: Piece, r: string, index': nat): Place
    requires at.k <= p.start <= p.end <= |text|
  {
    Place(r, index', at.done + text[at.k..p.start] + p.replacement, p.end, p.end)
  }

  lemma PutText(text: string, at: Place, h: Hit, put: Action, p: Piece, r: string, index': nat)
    requires at.k <= at.pos <= |text| && at.redacted == at.done + text[at.k..]
    requires at.index <= |at.redacted| && at.redacted[at.index..] == text[at.pos..]
    requires |at.redacted| - at.index == |text| - at.pos
    requires h.len >= 3 && at.index + h.start + h.len <= |at.redacted| && put.Put? && put.text != ""
    requires p == Piece(at.pos + h.start, at.pos + h.start + h.len, put.text)
    requires Spliced(at.redacted, at.index, h, put, r, index')
    ensures index' <= |r| && |r| - index' < |at.redacted| - at.index
    ensures at.k <= p.start <= p.end <= |text|
    ensures var next := PlaceAfter(text, at, p, r, index');
            next.redacted == next.done + text[next.k..] && Aligned(next.redacted, next.index, text, next.k, next.pos)
  {
    SplicedText(at.redacted, at.done, text, at.k, at.index, at.pos, h, put, r, index');
  }

  lemma PutStands(find: Pattern, rule: Rule, text: string, at: Place, h: Hit, put: Action, r: string, index': nat)
    returns (next: Place)
    requires Standing(find, rule, text, at)
    requires at.redacted[at.index..] == text[at.pos..] && |at.redacted| - at.index == |text| - at.pos
    requires h.len >= 3 && at.index + h.start + h.len <= |at.redacted| && put.Put? && put.text != ""
    requires ScanStep(find, rule, text, at.pos) == Found(Piece(at.pos + h.start, at.pos + h.start + h.len, put.text))
    requires Spliced(at.redacted, at.index, h, put, r, index')
    ensures index' <= |r| && |r| - index' < |at.redacted| - at.index
    ensures next.redacted == r && next.index == index' && Standing(find, rule, text, next)
  {
    var p := ScanStep(find, rule, text, at.pos).piece;
    PutText(text, at, h, put, p, r, index');
    FoundProgress(find, rule, text, at.done, at.k, at.pos);
    next := PlaceAfter(text, at, p, r, index');
  }

  /** One match: keep it, or put its replacement in. */
  method TakeMatch(find: Pattern, rule: Rule, ghost text: string, redacted: string, index: nat, h: Hit, ghost at: Place)
    returns (r: string, index': nat, ghost next: Place)
    requires Lawful(find, rule) && Standing(find, rule, text, at)
    requires at.redacted == redacted && at.index == index && find(redacted[index..]) == Some(h)
    ensures index' <= |r| && |r| - index' < |redacted| - index
    ensures next.redacted == r && next.index == index' && Standing(find, rule, text, next)
  {
    SameStep(find, rule, redacted, index, text, at.k, at.pos);
    var start := index + h.start;
    var uri := redacted[start..start + h.len];
    var action := rule(uri);
    if action.Keep? {
      next := KeepStands(find, rule, text, at);
      r, index' := redacted, index + h.len;
    } else {
      assert |uri| == h.len;
      r, index' := Splice(redacted, start, start + h.len, action);
      next := PutStands(find, rule, text, at, h, action, r, index');
    }
  }

  /** The loop.  What is left of the text beyond the index falls with every match. */
  method RewriteAll(find: Pattern, rule: Rule, text: string) returns (redacted: string)
    requires Lawful(find, rule)
    ensures redacted == Rewritten(find, rule, text)
  {
    redacted := text;
    var index := 0;
    ghost var at := Place(text, 0, "", 0, 0);
    PiecesInOrder(find, rule, text, 0, 0);
    while true
      invariant at.redacted == redacted && at.index == index <= |redacted|
      invariant Standing(find, rule, text, at)
      decreases |redacted| - index
    {
      var found := find(redacted[index..]);
      if found.None? {
        break;
      }
      redacted, index, at := TakeMatch(find, rule, text, redacted, index, found.value, at);
    }
    NoMoreMatches(find, rule, text, redacted, index, at.done, at.k, at.pos);
  }
}
