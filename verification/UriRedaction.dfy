/** Redacting credentials in the URIs of a text.

    The pattern is: word characters, a colon, and then everything up to the next white space (at
    least one character).  Splitting a URI into its parts is a parameter. */
module UriRedaction {
  import opened Wrappers
  import opened TextScan

  /** What splitting a URI yields; an absent user name or password is the empty text. */
  datatype Parts = Malformed | Parts(username: string, password: string, netloc: string)

  type Splitter = string -> Parts

  const REPLACE_STR := "$encrypted$"

  // ---------------------------------------------------------------- the pattern

  predicate IsWord(c: char) { 'a' <= c <= 'z' || 'A' <= c <= 'Z' || '0' <= c <= '9' || c == '_' }

  function WordRun(s: string): (n: nat)
    ensures n <= |s| && (n < |s| ==> !IsWord(s[n]))
    ensures forall i :: 0 <= i < n ==> IsWord(s[i])
  {
    if s == "" || !IsWord(s[0]) then 0 else 1 + WordRun(s[1..])
  }

  function InkRun(s: string): (n: nat)
    ensures n <= |s| && (n < |s| ==> IsSpace(s[n]))
    ensures forall i :: 0 <= i < n ==> !IsSpace(s[i])
  {
    if s == "" || IsSpace(s[0]) then 0 else 1 + InkRun(s[1..])
  }

  /** The length of the URI at the front of s, or 0. */
  function UriLength(s: string): (n: nat)
    ensures n <= |s| && (n > 0 ==> n >= 3)
  {
    var w := WordRun(s);
    if w == 0 || w == |s| || s[w] != ':' then 0
    else
      var ink := InkRun(s[w + 1..]);
      if ink == 0 then 0 else w + 1 + ink
  }

  /** A URI has no white space in it and ends before one, or with the text. */
  lemma UriShape(s: string)
    ensures var n := UriLength(s);
            n > 0 ==> (n < |s| ==> IsSpace(s[n])) && forall i :: 0 <= i < n ==> !IsSpace(s[i])
  {
    var n, w := UriLength(s), WordRun(s);
    if n > 0 {
      var ink := InkRun(s[w + 1..]);
      forall i | 0 <= i < n ensures !IsSpace(s[i]) {
        if i > w {
          assert s[w + 1..][i - w - 1] == s[i];
        }
      }
      if n < |s| {
        assert s[w + 1..][ink] == s[n];
      }
    }
  }

  /** Words are made of the letters and digits of ASCII and of underscores, whose neighbours are not in them, and white
      space is what it is in ASCII. */
  lemma CharacterClasses(c: char)
    ensures IsWord('a') && IsWord('z') && IsWord('A') && IsWord('Z') && IsWord('0') && IsWord('9') && IsWord('_')
    ensures c in {'`', '{', '@', '[', '/', ':', '.', '-'} ==> !IsWord(c)
    ensures 'b' <= c <= 'y' || 'B' <= c <= 'Y' || '1' <= c <= '8' ==> IsWord(c)
    ensures IsSpace(c) <==> c in {' ', '\t', '\n', '\U{B}', '\U{C}', '\r'}
  {
  }

  /** A URI at the front is a word, a colon, and at least one more character, up to white space or the end. */
  lemma UriLengthExactly(s: string, n: nat)
    requires n > 0
    ensures UriLength(s) == n <==>
            && n <= |s| && (n < |s| ==> IsSpace(s[n]))
            && exists w :: 0 < w < n - 1 && s[w] == ':' && (forall i :: 0 <= i < w ==> IsWord(s[i])) &&
                           forall i :: w < i < n ==> !IsSpace(s[i])
  {
    var w0 := WordRun(s);
    if 0 < w0 < |s| {
      var tail := s[w0 + 1..];
      forall i | w0 < i < |s| ensures s[i] == tail[i - w0 - 1] {
      }
    }
    if w :| 0 < w < n - 1 && n <= |s| && s[w] == ':' && forall i :: 0 <= i < w ==> IsWord(s[i]) {
      assert w == w0;
    }
  }

  /** The leftmost URI of a text. */
  function FindUri(s: string): (r: Option<Hit>)
    ensures r.Some? ==> r.value.start < |s| && r.value.len == UriLength(s[r.value.start..]) > 0
    decreases |s|
  {
    if s == "" then None
    else if UriLength(s) > 0 then
      assert s[0..] == s;
      Some(Hit(0, UriLength(s)))
    else
      var rest := FindUri(s[1..]);
      if rest.None? then None
      else
        assert s[1..][rest.value.start..] == s[1 + rest.value.start..];
        Some(Hit(1 + rest.value.start, rest.value.len))
  }

  lemma {:induction false} FindUriLeftmost(s: string, i: nat)
    requires i < |s| && UriLength(s[i..]) > 0
    ensures FindUri(s).Some? && FindUri(s).value.start <= i
    decreases |s|
  {
    if i == 0 {
      assert s[0..] == s;
    } else {
      assert s[1..][i - 1..] == s[i..];
      FindUriLeftmost(s[1..], i - 1);
    }
  }

  lemma FoundAtFront(s: string)
    requires s != "" && UriLength(s) > 0
    ensures FindUri(s) == Some(Hit(0, UriLength(s)))
  {
  }

  lemma FindUriLawful(s: string)
    ensures LawfulOn(FindUri, s)
  {
    if FindUri(s).Some? {
      var h := FindUri(s).value;
      FoundAtFront(s[h.start..]);
      UriShape(s[h.start..]);
      forall j | h.start <= j < |s| && IsSpace(s[j]) ensures h.start + h.len <= j {
        assert s[h.start..][j - h.start] == s[j];
      }
    }
    forall i: nat | Begins(FindUri, s, i) ensures FindUri(s).Some? && FindUri(s).value.start <= i {
      assert s[i..][0..] == s[i..];
      FindUriLeftmost(s, i);
    }
  }

  // ---------------------------------------------------------------- rewriting one URI

  predicate StartsWith(s: string, p: string) { |p| <= |s| && s[..|p|] == p }

  /** Replace at most `count` occurrences, from the left, without overlap. */
  function Replace(s: string, from: string, to: string, count: nat): (r: string)
    requires from != ""
    ensures to != "" && s != "" ==> r != ""
    decreases |s|
  {
    if s == "" || count == 0 then s
    else if StartsWith(s, from) then to + Replace(s[|from|..], from, to, count - 1)
    else [s[0]] + Replace(s[1..], from, to, count)
  }

  function Colons(s: string): nat {
    if s == "" then 0 else (if s[0] == ':' then 1 else 0) + Colons(s[1..])
  }

  function Before(s: string): string {
    if s == "" || s[0] == ':' then "" else [s[0]] + Before(s[1..])
  }

  function After(s: string): string {
    if s == "" then "" else if s[0] == ':' then s[1..] else After(s[1..])
  }

  datatype Verdict = Leave | Whole | Secrets(username: string, password: string)

  /** What to do with a URI: leave it, redact all of it, or redact its user name and password.  With
      neither, a network location "user:password" supplies them; one with more colons is invalid. */
  function Judge(parts: Parts): Verdict {
    if parts.Malformed? then Whole
    else if parts.username != "" || parts.password != "" then Secrets(parts.username, parts.password)
    else if Colons(parts.netloc) == 0 then Leave
    else if Colons(parts.netloc) == 1 then Secrets(Before(parts.netloc), After(parts.netloc))
    else Whole
  }

  /** The first occurrence of the user name and then the first two of the password are replaced. */
  function HideSecrets(uri: string, username: string, password: string): (r: string)
    ensures uri != "" ==> r != ""
  {
    var u := if username != "" then Replace(uri, username, REPLACE_STR, 1) else uri;
    if password != "" then Replace(u, password, REPLACE_STR, 2) else u
  }

  function ActionFor(uri: string, v: Verdict): (r: Action)
    ensures uri != "" && r.Put? ==> r.text != ""
  {
    match v
    case Leave => Keep
    case Whole => Put(REPLACE_STR, false)
    case Secrets(username, password) => Put(HideSecrets(uri, username, password), true)
  }

  function UriRule(split: Splitter): Rule {
    uri => ActionFor(uri, Judge(split(uri)))
  }

  predicate OccursAt(s: string, p: string, i: nat) { i + |p| <= |s| && s[i..i + |p|] == p }

  lemma OccursShift(s: string, p: string, j: nat)
    requires s != ""
    ensures OccursAt(s[1..], p, j) <==> OccursAt(s, p, j + 1)
  {
    if j + 1 + |p| <= |s| {
      assert s[1..][j..j + |p|] == s[j + 1..j + 1 + |p|];
    }
  }

  lemma ReplaceSkips(s: string, p: string, to: string, count: nat)
    requires p != "" && count > 0 && s != "" && !OccursAt(s, p, 0)
    ensures Replace(s, p, to, count) == [s[0]] + Replace(s[1..], p, to, count)
  {
    assert s[..0] == "" && !StartsWith(s, p);
  }

  lemma ReplaceHere(s: string, p: string, to: string, count: nat)
    requires p != "" && count > 0 && OccursAt(s, p, 0)
    ensures Replace(s, p, to, count) == to + Replace(s[|p|..], p, to, count - 1)
  {
    assert s[..|p|] == s[0..0 + |p|] == p;
  }

  /** Replacing works on the first occurrence, and goes on behind it. */
  lemma {:induction false} ReplaceFirst(s: string, p: string, to: string, count: nat, i: nat)
    requires p != "" && count > 0 && OccursAt(s, p, i) && forall j: nat :: j < i ==> !OccursAt(s, p, j)
    ensures Replace(s, p, to, count) == s[..i] + (to + Replace(s[i + |p|..], p, to, count - 1))
    decreases i
  {
    if i == 0 {
      ReplaceHere(s, p, to, count);
      assert s[..0] + (to + Replace(s[|p|..], p, to, count - 1)) == to + Replace(s[|p|..], p, to, count - 1);
    } else {
      var t := s[1..];
      ReplaceSkips(s, p, to, count);
      OccursShift(s, p, i - 1);
      forall j: nat | j < i - 1 ensures !OccursAt(t, p, j) {
        OccursShift(s, p, j);
      }
      ReplaceFirst(t, p, to, count, i - 1);
      assert t[i - 1 + |p|..] == s[i + |p|..];
      ConsSlice(s, i, to + Replace(s[i + |p|..], p, to, count - 1));
    }
  }

  lemma ConsSlice(s: string, i: nat, rest: string)
    requires 0 < i <= |s|
    ensures [s[0]] + (s[1..][..i - 1] + rest) == s[..i] + rest
  {
    assert [s[0]] + s[1..][..i - 1] == s[..i];
  }

  // ---------------------------------------------------------------- the cleaner

  lemma RuleNeverEmpties(split: Splitter, uri: string)
    requires uri != "" && UriRule(split)(uri).Put?
    ensures UriRule(split)(uri).text != ""
  {
    assert UriRule(split)(uri) == ActionFor(uri, Judge(split(uri)));
  }

  lemma UriScanLawful(split: Splitter)
    ensures Lawful(FindUri, UriRule(split))
  {
    forall s ensures LawfulOn(FindUri, s) {
      FindUriLawful(s);
    }
    forall s | s != "" && UriRule(split)(s).Put? ensures UriRule(split)(s).text != "" {
      RuleNeverEmpties(split, s);
    }
  }

  /** The redacted text is the original with each rewritten URI in place and everything else copied. */
  method RemoveSensitive(split: Splitter, cleartext: string) returns (redacted: string)
    ensures redacted == Rewritten(FindUri, UriRule(split), cleartext)
  {
    UriScanLawful(split);
    redacted := RewriteAll(FindUri, UriRule(split), cleartext);
  }

  /** The split found a user name, a password, or a colon in the network location; or it failed. */
  predicate MustRedact(parts: Parts) {
    parts.Malformed? || parts.username != "" || parts.password != "" || ':' in parts.netloc
  }

  /** The secrets the split found: its user name and password, or else the two sides of the one colon in the network
      location. */
  ghost predicate Holds(parts: Parts, username: string, password: string) {
    && !parts.Malformed?
    && if parts.username != "" || parts.password != "" then username == parts.username && password == parts.password
       else multiset(parts.netloc)[':'] == 1 && parts.netloc == username + ":" + password
  }

  /** The split failed, or found neither and more than one colon in the network location. */
  predicate Invalid(parts: Parts) {
    parts.Malformed? || (parts.username == "" && parts.password == "" && multiset(parts.netloc)[':'] > 1)
  }

  /** What stands in place of a URI: an invalid one leaves but the marker, any other has been searched for its own
      user name and password (UriSecrets.dfy says when they are hidden). */
  ghost predicate RedactedAs(parts: Parts, uri: string, replacement: string) {
    && MustRedact(parts)
    && (Invalid(parts) ==> replacement == REPLACE_STR)
    && forall username, password :: Holds(parts, username, password) ==>
         replacement == HideSecrets(uri, username, password)
  }

  lemma {:induction false} ColonsCounted(s: string)
    ensures Colons(s) == multiset(s)[':']
  {
    if s != "" {
      ColonsCounted(s[1..]);
      assert s == [s[0]] + s[1..];
    }
  }

  lemma {:induction false} AroundColon(s: string, username: string, password: string)
    requires s == username + ":" + password && multiset(s)[':'] == 1
    ensures Before(s) == username && After(s) == password
  {
    if username == "" {
      assert s[1..] == password;
    } else {
      assert s[0] == username[0] && s[1..] == username[1..] + ":" + password;
      assert s == [s[0]] + s[1..];
      assert s[1..][|username| - 1] == ':';
      AroundColon(s[1..], username[1..], password);
    }
  }

  /** The verdict is about exactly what the split found. */
  lemma JudgedAsSplit(parts: Parts, uri: string)
    ensures MustRedact(parts) <==> ActionFor(uri, Judge(parts)).Put?
    ensures MustRedact(parts) ==> RedactedAs(parts, uri, ActionFor(uri, Judge(parts)).text)
  {
    if !parts.Malformed? && parts.username == "" && parts.password == "" {
      ColonsCounted(parts.netloc);
      forall username, password | Holds(parts, username, password)
        ensures Before(parts.netloc) == username && After(parts.netloc) == password
      {
        AroundColon(parts.netloc, username, password);
      }
    }
  }

  /** A URI that had to be redacted, with what stands in its place. */
  ghost predicate RedactedUri(split: Splitter, text: string, p: Piece) {
    && p.start < p.end <= |text| && p.end - p.start == UriLength(text[p.start..])
    && RedactedAs(split(text[p.start..p.end]), text[p.start..p.end], p.replacement)
  }

  lemma GenuineRedacted(split: Splitter, text: string, p: Piece)
    requires Genuine(FindUri, UriRule(split), text, p)
    ensures RedactedUri(split, text, p)
  {
    var rest := text[p.start..];
    assert rest[0..] == rest;
    JudgedAsSplit(split(text[p.start..p.end]), text[p.start..p.end]);
  }

  /** The first URI of every unbroken run of text that must be redacted is redacted, whatever
      surrounds it. */
  lemma EveryUriRedacted(split: Splitter, text: string, s: nat)
    requires FirstOfItsWord(FindUri, text, s) && MustRedact(split(text[s..][..UriLength(text[s..])]))
    ensures exists p :: p in Pieces(FindUri, UriRule(split), text, 0) && p.start == s && RedactedUri(split, text, p)
  {
    UriScanLawful(split);
    AtFront(text[s..]);
    assert LawfulOn(FindUri, text[s..]);
    var uri := text[s..][..UriLength(text[s..])];
    JudgedAsSplit(split(uri), uri);
    EveryMatchExamined(FindUri, UriRule(split), text, 0, s);
    var p :| p in Pieces(FindUri, UriRule(split), text, 0) && p.start == s && Genuine(FindUri, UriRule(split), text, p);
    GenuineRedacted(split, text, p);
  }

  lemma AtFront(s: string)
    requires FindUri(s).Some? && FindUri(s).value.start == 0
    ensures FindUri(s).value.len == UriLength(s)
  {
    assert s[0..] == s;
  }

  /** Only URIs that must be redacted are rewritten, and they do not overlap. */
  lemma OnlyUrisRedacted(split: Splitter, text: string, p: Piece)
    requires p in Pieces(FindUri, UriRule(split), text, 0)
    ensures InOrder(text, 0, Pieces(FindUri, UriRule(split), text, 0))
    ensures RedactedUri(split, text, p)
  {
    UriScanLawful(split);
    PiecesInOrder(FindUri, UriRule(split), text, 0, 0);
    PiecesGenuine(FindUri, UriRule(split), text, 0, p);
    GenuineRedacted(split, text, p);
  }

  // ---------------------------------------------------------------- a URI behind another colon

  /** The URI that begins at i. */
  function UriAt(text: string, i: nat): string
    requires i <= |text|
  {
    text[i..][..UriLength(text[i..])]
  }

  /** A URI begins at i that must be redacted. */
  ghost predicate Risky(split: Splitter, text: string, i: nat) {
    Begins(FindUri, text, i) && MustRedact(split(UriAt(text, i)))
  }

  /** All of the URI at i lies in a rewritten piece. */
  ghost predicate Rewrites(split: Splitter, text: string, i: nat)
    requires i <= |text|
  {
    exists p :: p in Pieces(FindUri, UriRule(split), text, 0) && p.start <= i && i + UriLength(text[i..]) <= p.end
  }

  predicate NoSpace(text: string, s: nat, i: nat)
    requires i <= |text|
  {
    forall j :: s <= j < i ==> !IsSpace(text[j])
  }

  /** No first URI of an unbroken run is left while another one in that run must be redacted. */
  ghost predicate NoneBehind(split: Splitter, text: string) {
    forall s, i {:trigger FirstOfItsWord(FindUri, text, s), Risky(split, text, i)} ::
      0 <= s <= i && FirstOfItsWord(FindUri, text, s) && Risky(split, text, i) && NoSpace(text, s, i) ==>
        Risky(split, text, s)
  }

  lemma {:induction false} FirstBeginning(find: Pattern, text: string, from: nat, i: nat) returns (s: nat)
    requires from <= i && Begins(find, text, i)
    ensures from <= s <= i && Begins(find, text, s) && forall j :: from <= j < s ==> !Begins(find, text, j)
    decreases i - from
  {
    if Begins(find, text, from) {
      s := from;
    } else {
      s := FirstBeginning(find, text, from + 1, i);
    }
  }

  /** Where the run that i is in begins. */
  lemma {:induction false} RunStart(text: string, i: nat) returns (from: nat)
    requires i <= |text|
    ensures from <= i && NoSpace(text, from, i) && (from > 0 ==> IsSpace(text[from - 1]))
    decreases i
  {
    if i == 0 || IsSpace(text[i - 1]) {
      from := i;
    } else {
      from := RunStart(text, i - 1);
    }
  }

  lemma FirstOfItsRun(find: Pattern, text: string, i: nat) returns (s: nat)
    requires Begins(find, text, i)
    ensures s <= i && FirstOfItsWord(find, text, s) && NoSpace(text, s, i)
  {
    var from := RunStart(text, i);
    s := FirstBeginning(find, text, from, i);
    if from > 0 {
      assert IsSpace(text[from - 1]);
    }
  }

  lemma UriSpan(text: string, s: nat)
    requires s <= |text| && UriLength(text[s..]) > 0
    ensures var e := s + UriLength(text[s..]);
            (e < |text| ==> IsSpace(text[e])) && forall j :: s <= j < e ==> !IsSpace(text[j])
  {
    UriShape(text[s..]);
    var n := UriLength(text[s..]);
    if s + n < |text| {
      assert text[s..][n] == text[s + n];
    }
    forall j | s <= j < s + n ensures !IsSpace(text[j]) {
      assert text[s..][j - s] == text[j];
    }
  }

  /** The URI at the front of a run reaches to the end of every other one in it. */
  lemma SameEnd(text: string, s: nat, i: nat)
    requires s <= i < |text| && UriLength(text[s..]) > 0 && UriLength(text[i..]) > 0 && NoSpace(text, s, i)
    ensures i + UriLength(text[i..]) <= s + UriLength(text[s..])
  {
    UriSpan(text, s);
    UriSpan(text, i);
  }

  /** Where the first URI of a run is rewritten, so is every other one in the run, along with it. */
  lemma RunRewritten(split: Splitter, text: string, s: nat, i: nat)
    requires s <= i && FirstOfItsWord(FindUri, text, s) && Risky(split, text, s)
    requires Begins(FindUri, text, i) && NoSpace(text, s, i)
    ensures Rewrites(split, text, i)
  {
    EveryUriRedacted(split, text, s);
    var p :| p in Pieces(FindUri, UriRule(split), text, 0) && p.start == s && RedactedUri(split, text, p);
    AtFront(text[i..]);
    AtFront(text[s..]);
    SameEnd(text, s, i);
  }

  /** Every URI that must be redacted is, in a text in which none of them is behind one that is left. */
  lemma AllRewritten(split: Splitter, text: string)
    requires NoneBehind(split, text)
    ensures forall i :: 0 <= i <= |text| && Risky(split, text, i) ==> Rewrites(split, text, i)
  {
    forall i | 0 <= i <= |text| && Risky(split, text, i) ensures Rewrites(split, text, i) {
      var s := FirstOfItsRun(FindUri, text, i);
      RunRewritten(split, text, s, i);
    }
  }

  lemma LeftStep(split: Splitter, text: string)
    requires UriLength(text) == |text| > 0 && !MustRedact(split(text))
    ensures ScanStep(FindUri, UriRule(split), text, 0) == Passed(|text|)
  {
    assert text[0..] == text && text[0..|text|] == text;
    FoundAtFront(text);
    JudgedAsSplit(split(text), text);
  }

  lemma EndStep(split: Splitter, text: string)
    ensures Pieces(FindUri, UriRule(split), text, |text|) == []
  {
    assert text[|text|..] == "" && FindUri("") == None;
  }

  /** Nothing in a text that is one URI is rewritten if that URI is left. */
  lemma LeftUntouched(split: Splitter, text: string)
    requires UriLength(text) == |text| > 0 && !MustRedact(split(text))
    ensures Pieces(FindUri, UriRule(split), text, 0) == [] && Rewritten(FindUri, UriRule(split), text) == text
  {
    LeftStep(split, text);
    EndStep(split, text);
    assert Pieces(FindUri, UriRule(split), text, 0) == Pieces(FindUri, UriRule(split), text, |text|);
    assert text[0..] == text;
  }

  lemma OnlyFirst(text: string, s: nat)
    requires UriLength(text) == |text| > 0 && FirstOfItsWord(FindUri, text, s)
    ensures s == 0
  {
    assert text[0..] == text;
    FoundAtFront(text);
    assert Begins(FindUri, text, 0);
    UriShape(text);
  }

  lemma RiskyFront(split: Splitter, text: string)
    requires UriLength(text) == |text| > 0 && MustRedact(split(text))
    ensures NoneBehind(split, text)
  {
    assert text[0..] == text;
    RiskyAt(split, text, 0, text);
    forall s, i | 0 <= s <= i && FirstOfItsWord(FindUri, text, s) && Risky(split, text, i) && NoSpace(text, s, i)
      ensures Risky(split, text, s)
    {
      OnlyFirst(text, s);
    }
  }

  /** In a text that is one URI the condition is exact. */
  lemma OneUriExactly(split: Splitter, text: string)
    requires UriLength(text) == |text| > 0
    ensures (forall i :: 0 <= i <= |text| && Risky(split, text, i) ==> Rewrites(split, text, i)) <==>
            NoneBehind(split, text)
  {
    if NoneBehind(split, text) {
      AllRewritten(split, text);
    } else if !MustRedact(split(text)) {
      LeftUntouched(split, text);
    } else {
      RiskyFront(split, text);
    }
  }

  lemma RiskyAt(split: Splitter, text: string, k: nat, inner: string)
    requires k < |text| && text[k..] == inner && UriLength(inner) == |inner| && MustRedact(split(inner))
    ensures Risky(split, text, k)
  {
    FoundAtFront(inner);
    assert inner[..|inner|] == inner;
  }

  /** A URI behind another colon is missed when the match that begins before it is left. */
  lemma NestedUriMissed(split: Splitter, text: string, scheme: string, inner: string)
    requires |scheme| > 0 && (forall c :: c in scheme ==> IsWord(c)) && UriLength(inner) == |inner| > 0
    requires text == scheme + (":" + inner) && !MustRedact(split(text)) && MustRedact(split(inner))
    ensures Risky(split, text, |scheme| + 1) && !Rewrites(split, text, |scheme| + 1)
    ensures Rewritten(FindUri, UriRule(split), text) == text
  {
    UriShape(inner);
    SchemeLength(scheme, inner);
    LeftUntouched(split, text);
    assert text[|scheme| + 1..] == inner;
    RiskyAt(split, text, |scheme| + 1, inner);
  }

  /** The credentials in x:http://u:p@h stay: it is one match, it has no network location, and so all of it is left,
      although http://u:p@h by itself would be redacted. */
  lemma NestedUriExample(split: Splitter, text: string, inner: string)
    requires inner == "http" + (":" + "//u:p@h") && text == "x" + (":" + inner)
    requires split(text) == Parts("", "", "") && split(inner) == Parts("u", "p", "u:p@h")
    ensures Risky(split, text, 2) && !Rewrites(split, text, 2) && Rewritten(FindUri, UriRule(split), text) == text
  {
    SchemeLength("http", "//u:p@h");
    NestedUriMissed(split, text, "x", inner);
  }

  lemma SchemeLength(scheme: string, rest: string)
    requires |scheme| > 0 && |rest| > 0 && (forall c :: c in scheme ==> IsWord(c)) && forall c :: c in rest ==>
             !IsSpace(c)
    ensures UriLength(scheme + (":" + rest)) == |scheme| + 1 + |rest|
  {
    var s := scheme + (":" + rest);
    WordsThenColon(scheme, rest);
    NoSpaceInk(rest);
    assert s[|scheme| + 1..] == rest;
  }

  lemma {:induction false} WordsThenColon(scheme: string, rest: string)
    requires forall c :: c in scheme ==> IsWord(c)
    ensures WordRun(scheme + (":" + rest)) == |scheme|
  {
    var s := scheme + (":" + rest);
    if scheme != "" {
      assert s[1..] == scheme[1..] + (":" + rest);
      WordsThenColon(scheme[1..], rest);
    }
  }

  lemma {:induction false} NoSpaceInk(s: string)
    requires forall c :: c in s ==> !IsSpace(c)
    ensures InkRun(s) == |s|
  {
    if s != "" {
      NoSpaceInk(s[1..]);
    }
  }
}
