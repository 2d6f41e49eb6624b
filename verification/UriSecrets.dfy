/** Where the secrets of a redacted URI end up.

    A user name is replaced at its first occurrence anywhere in the URI, and then a password at its first two.
    Neither need be the place where the URI holds it. */
module UriSecrets {
  import opened Wrappers
  import opened TextScan
  import opened UriRedaction

  // ---------------------------------------------------------------- which occurrences are replaced

  /** Where the replaced occurrences start, for a text that starts at `at`. */
  function Picks(s: string, p: string, count: nat, at: nat): seq<nat>
    requires p != ""
    decreases |s|
  {
    if s == "" || count == 0 then []
    else if StartsWith(s, p) then [at] + Picks(s[|p|..], p, count - 1, at + |p|)
    else Picks(s[1..], p, count, at + 1)
  }

  /** The text from k on with `to` in place of n characters at each pick. */
  function Patched(s: string, k: nat, picks: seq<nat>, n: nat, to: string): string
    requires InPlace(s, k, picks, n)
    decreases |picks|
  {
    if picks == [] then s[k..]
    else s[k..picks[0]] + to + Patched(s, picks[0] + n, picks[1..], n, to)
  }

  /** The picks lie one behind the other, from k on. */
  predicate InPlace(s: string, k: nat, picks: seq<nat>, n: nat)
    decreases |picks|
  {
    if picks == [] then k <= |s|
    else k <= picks[0] && picks[0] + n <= |s| && InPlace(s, picks[0] + n, picks[1..], n)
  }

  /** Replacing changes the picked places and copies the rest. */
  lemma {:induction false} ReplacePatches(s: string, k: nat, p: string, to: string, count: nat)
    requires p != "" && k <= |s|
    ensures InPlace(s, k, Picks(s[k..], p, count, k), |p|)
    ensures Replace(s[k..], p, to, count) == Patched(s, k, Picks(s[k..], p, count, k), |p|, to)
    decreases |s| - k
  {
    var rest := s[k..];
    if rest != "" && count > 0 {
      if StartsWith(rest, p) {
        RestFrom(s, k, |p|);
        ReplacePatches(s, k + |p|, p, to, count - 1);
        OnePatched(s, k, Picks(s[k + |p|..], p, count - 1, k + |p|), |p|, to);
      } else {
        RestFrom(s, k, 1);
        ReplacePatches(s, k + 1, p, to, count);
        OneMoreCopied(s, k, Picks(s[k + 1..], p, count, k + 1), |p|, to);
      }
    }
  }

  lemma RestFrom(s: string, k: nat, n: nat)
    requires k + n <= |s|
    ensures s[k..][n..] == s[k + n..]
  {
  }

  lemma OnePatched(s: string, k: nat, picks: seq<nat>, n: nat, to: string)
    requires k + n <= |s| && InPlace(s, k + n, picks, n)
    ensures InPlace(s, k, [k] + picks, n) && Patched(s, k, [k] + picks, n, to) == to + Patched(s, k + n, picks, n, to)
  {
    var all := [k] + picks;
    assert all[1..] == picks && all[0] == k;
    assert s[k..k] + to == to;
  }

  lemma OneMoreCopied(s: string, k: nat, picks: seq<nat>, n: nat, to: string)
    requires k < |s| && InPlace(s, k + 1, picks, n)
    ensures InPlace(s, k, picks, n) && Patched(s, k, picks, n, to) == [s[k]] + Patched(s, k + 1, picks, n, to)
  {
    if picks == [] {
      assert s[k..] == [s[k]] + s[k + 1..];
    } else {
      var rest := Patched(s, picks[0] + n, picks[1..], n, to);
      ConsSlices(s, k, picks[0], to, rest);
    }
  }

  lemma ConsSlices(s: string, k: nat, q: nat, to: string, rest: string)
    requires k < q <= |s|
    ensures s[k..q] + to + rest == [s[k]] + (s[k + 1..q] + to + rest)
  {
    assert s[k..q] == [s[k]] + s[k + 1..q];
  }

  /** The first place at or behind k where p occurs. */
  ghost predicate FirstFrom(s: string, p: string, k: nat, i: nat) {
    k <= i && OccursAt(s, p, i) && forall j :: k <= j < i ==> !OccursAt(s, p, j)
  }

  lemma {:induction false} FirstPick(s: string, k: nat, p: string, count: nat, i: nat)
    requires p != "" && count > 0 && FirstFrom(s, p, k, i)
    ensures Picks(s[k..], p, count, k) == [i] + Picks(s[i + |p|..], p, count - 1, i + |p|)
    decreases i - k
  {
    var rest := s[k..];
    if i == k {
      assert rest[..|p|] == s[k..k + |p|] && rest[|p|..] == s[k + |p|..];
    } else {
      assert !OccursAt(s, p, k);
      assert |p| <= |rest| ==> rest[..|p|] == s[k..k + |p|];
      assert rest[1..] == s[k + 1..];
      FirstPick(s, k + 1, p, count, i);
    }
  }

  lemma {:induction false} NoPick(s: string, k: nat, p: string, count: nat)
    requires p != "" && k <= |s| && forall j :: k <= j ==> !OccursAt(s, p, j)
    ensures Picks(s[k..], p, count, k) == []
    decreases |s| - k
  {
    var rest := s[k..];
    if rest != "" && count > 0 {
      assert !OccursAt(s, p, k);
      assert |p| <= |rest| ==> rest[..|p|] == s[k..k + |p|];
      assert rest[1..] == s[k + 1..];
      NoPick(s, k + 1, p, count);
    }
  }

  lemma {:induction false} FirstExists(s: string, p: string, k: nat, b: nat) returns (i: nat)
    requires k <= b && OccursAt(s, p, b)
    ensures FirstFrom(s, p, k, i) && i <= b
    decreases b - k
  {
    if OccursAt(s, p, k) {
      i := k;
    } else {
      i := FirstExists(s, p, k + 1, b);
    }
  }

  // ---------------------------------------------------------------- what is hidden

  /** Each of the n characters from `place` on lies in a replaced occurrence. */
  ghost predicate Hidden(picks: seq<nat>, len: nat, place: nat, n: nat) {
    forall j :: place <= j < place + n ==> Covered(picks, len, j)
  }

  ghost predicate Covered(picks: seq<nat>, len: nat, j: nat) {
    exists q :: q in picks && q <= j < q + len
  }

  /** One replacement hides an occurrence exactly when it is the first one. */
  lemma OnceHidesExactly(s: string, p: string, a: nat)
    requires p != "" && OccursAt(s, p, a)
    ensures Hidden(Picks(s, p, 1, 0), |p|, a, |p|) <==> FirstFrom(s, p, 0, a)
  {
    var i := FirstExists(s, p, 0, a);
    assert s[0..] == s;
    FirstPick(s, 0, p, 1, i);
    assert Picks(s, p, 1, 0) == [i];
    if Hidden([i], |p|, a, |p|) {
      assert Covered([i], |p|, a) && Covered([i], |p|, a + |p| - 1);
    }
    if i == a {
      forall j | a <= j < a + |p| ensures Covered([i], |p|, j) {
        assert i in [i];
      }
    }
  }

  /** The occurrence at b is the first or the second one, or lies across the two, side by side. */
  ghost predicate AmongFirstTwo(s: string, p: string, b: nat) {
    exists i: nat :: FirstFrom(s, p, 0, i) &&
      (b == i || FirstFrom(s, p, i + |p|, b) || (i < b < i + |p| && OccursAt(s, p, i + |p|)))
  }

  /** Two replacements hide an occurrence exactly when it is among the first two. */
  lemma TwiceHidesExactly(s: string, p: string, b: nat)
    requires p != "" && OccursAt(s, p, b)
    ensures Hidden(Picks(s, p, 2, 0), |p|, b, |p|) <==> AmongFirstTwo(s, p, b)
  {
    var i := FirstExists(s, p, 0, b);
    assert s[0..] == s;
    FirstPick(s, 0, p, 2, i);
    var k := i + |p|;
    if m: nat :| FirstFrom(s, p, k, m) {
      TwoPicked(s, p, i, m, b);
    } else {
      OnePicked(s, p, i, k, b);
    }
  }

  lemma FirstUnique(s: string, p: string, k: nat, i: nat)
    requires FirstFrom(s, p, k, i)
    ensures forall x: nat :: FirstFrom(s, p, k, x) ==> x == i
  {
  }

  lemma TwoPicked(s: string, p: string, i: nat, m: nat, b: nat)
    requires p != "" && OccursAt(s, p, b) && FirstFrom(s, p, 0, i) && FirstFrom(s, p, i + |p|, m)
    requires Picks(s, p, 2, 0) == [i] + Picks(s[i + |p|..], p, 1, i + |p|)
    ensures Hidden(Picks(s, p, 2, 0), |p|, b, |p|) <==> AmongFirstTwo(s, p, b)
  {
    FirstPick(s, i + |p|, p, 1, m);
    assert Picks(s, p, 2, 0) == [i] + ([m] + []) == [i, m];
    TwoPicksHide(i, m, |p|, b);
    FirstUnique(s, p, 0, i);
    FirstUnique(s, p, i + |p|, m);
  }

  lemma OnePicked(s: string, p: string, i: nat, k: nat, b: nat)
    requires p != "" && OccursAt(s, p, b) && FirstFrom(s, p, 0, i)
    requires k == i + |p| && forall m: nat :: !FirstFrom(s, p, k, m)
    requires Picks(s, p, 2, 0) == [i] + Picks(s[k..], p, 1, k)
    ensures Hidden(Picks(s, p, 2, 0), |p|, b, |p|) <==> AmongFirstTwo(s, p, b)
  {
    forall j: nat | k <= j ensures !OccursAt(s, p, j) {
      if OccursAt(s, p, j) {
        var m := FirstExists(s, p, k, j);
      }
    }
    NoPick(s, k, p, 1);
    assert Picks(s, p, 2, 0) == [i];
    OnePickHides(i, |p|, b);
    FirstUnique(s, p, 0, i);
  }

  lemma OnePickHides(i: nat, len: nat, b: nat)
    requires len > 0 && i <= b
    ensures Hidden([i], len, b, len) <==> b == i
  {
    if Hidden([i], len, b, len) {
      assert Covered([i], len, b + len - 1);
    }
    assert i in [i];
  }

  lemma TwoPicksHide(i: nat, m: nat, len: nat, b: nat)
    requires len > 0 && i <= b && i + len <= m
    requires b >= i + len ==> m <= b
    ensures Hidden([i, m], len, b, len) <==> b == i || b == m || (m == i + len && i < b < m)
  {
    var picks := [i, m];
    assert i in picks && m in picks;
    if Hidden(picks, len, b, len) {
      assert Covered(picks, len, b) && Covered(picks, len, b + len - 1);
      assert i < b < i + len ==> Covered(picks, len, i + len);
    }
  }

  // ---------------------------------------------------------------- the secrets of a URI

  /** The URI holds the user name at a, and behind it a colon and the password. */
  ghost predicate Located(uri: string, username: string, password: string, a: nat) {
    && OccursAt(uri, username, a)
    && (password != "" ==>
          a + |username| < |uri| && uri[a + |username|] == ':' && OccursAt(uri, password, a + |username| + 1))
  }

  /** The network location stands in the URI, and begins with the user name and password. */
  ghost predicate Stands(parts: Parts, uri: string, n: nat)
    requires !parts.Malformed?
  {
    && OccursAt(uri, parts.netloc, n)
    && (parts.username != "" || parts.password != "" ==> Located(uri, parts.username, parts.password, n))
  }

  ghost predicate LawfulSplit(split: Splitter) {
    forall uri :: !split(uri).Malformed? ==> exists n :: Stands(split(uri), uri, n)
  }

  /** Where the network location stands, the URI holds the secrets. */
  lemma StandsLocated(parts: Parts, uri: string, username: string, password: string, n: nat)
    requires Holds(parts, username, password) && Stands(parts, uri, n)
    ensures Located(uri, username, password, n)
  {
    if parts.username == "" && parts.password == "" {
      NetlocSecrets(uri, parts.netloc, username, password, n);
    }
  }

  lemma NetlocSecrets(uri: string, netloc: string, u: string, p: string, a: nat)
    requires OccursAt(uri, netloc, a) && netloc == u + ":" + p
    ensures Located(uri, u, p, a)
  {
    assert |netloc| == |u| + 1 + |p|;
    assert netloc[..|u|] == u && netloc[|u|] == ':' && netloc[|u| + 1..] == p;
    SliceOf(uri, a, netloc, 0, |u|);
    SliceOf(uri, a, netloc, |u| + 1, |netloc|);
    assert uri[a..a + |netloc|][|u|] == uri[a + |u|];
  }

  lemma SliceOf(s: string, a: nat, part: string, i: nat, j: nat)
    requires OccursAt(s, part, a) && i <= j <= |part|
    ensures s[a + i..a + j] == part[i..j]
  {
    SliceOfSlice(s, a, a + |part|, i, j);
  }

  function WithoutUser(uri: string, username: string): string {
    if username == "" then uri else Replace(uri, username, REPLACE_STR, 1)
  }

  /** Where the password is once the user name has been replaced. */
  function PasswordPlace(username: string, a: nat): nat {
    if username == "" then a + 1 else a + |REPLACE_STR| + 1
  }

  lemma PasswordMoves(uri: string, username: string, password: string, a: nat)
    requires Located(uri, username, password, a) && password != ""
    ensures OccursAt(WithoutUser(uri, username), password, PasswordPlace(username, a))
  {
    if username != "" {
      var i := FirstExists(uri, username, 0, a);
      ReplaceFirst(uri, username, REPLACE_STR, 1, i);
      assert Replace(uri[i + |username|..], username, REPLACE_STR, 0) == uri[i + |username|..];
      MovedPlace(uri, i, |username|, REPLACE_STR, a + |username| + 1, password);
    }
  }

  /** A place behind a replacement moves with the difference in length. */
  lemma MovedPlace(s: string, i: nat, n: nat, to: string, b: nat, p: string)
    requires i + n <= b && OccursAt(s, p, b)
    ensures OccursAt(s[..i] + (to + s[i + n..]), p, b - n + |to|)
  {
    var head, tail := s[..i] + to, s[i + n..];
    var t := s[..i] + (to + tail);
    assert t == head + tail;
    var c := b - i - n;
    assert t[|head| + c..|head| + c + |p|] == tail[c..c + |p|] == s[b..b + |p|];
  }

  /** The user name is hidden where the URI holds it exactly when it occurs nowhere before, and the password exactly
      when its place is among the first two occurrences in what is left. */
  lemma SecretsHiddenExactly(uri: string, username: string, password: string, a: nat)
    requires Located(uri, username, password, a)
    ensures username != "" ==>
              && (Hidden(Picks(uri, username, 1, 0), |username|, a, |username|) <==> FirstFrom(uri, username, 0, a))
              && InPlace(uri, 0, Picks(uri, username, 1, 0), |username|)
              && WithoutUser(uri, username) == Patched(uri, 0, Picks(uri, username, 1, 0), |username|, REPLACE_STR)
    ensures HideSecrets(uri, username, "") == WithoutUser(uri, username)
    ensures var t, b := WithoutUser(uri, username), PasswordPlace(username, a);
            password != "" ==>
              && OccursAt(t, password, b)
              && (Hidden(Picks(t, password, 2, 0), |password|, b, |password|) <==> AmongFirstTwo(t, password, b))
              && InPlace(t, 0, Picks(t, password, 2, 0), |password|)
              && HideSecrets(uri, username, password) == Patched(t, 0, Picks(t, password, 2, 0), |password|,
                                                                 REPLACE_STR)
  {
    if username != "" {
      OnceHidesExactly(uri, username, a);
      assert uri[0..] == uri;
      ReplacePatches(uri, 0, username, REPLACE_STR, 1);
    }
    if password != "" {
      PasswordMoves(uri, username, password, a);
      var t := WithoutUser(uri, username);
      TwiceHidesExactly(t, password, PasswordPlace(username, a));
      assert t[0..] == t;
      ReplacePatches(t, 0, password, REPLACE_STR, 2);
    }
  }

  /** The user name at a is replaced, with whatever else the replacement of its first occurrence touches, and so hidden
      there exactly if that is the first. */
  ghost predicate UserAccounted(uri: string, username: string, t: string, a: nat) {
    if username == "" then t == uri
    else
      var picks := Picks(uri, username, 1, 0);
      && InPlace(uri, 0, picks, |username|) && t == Patched(uri, 0, picks, |username|, REPLACE_STR)
      && (Hidden(picks, |username|, a, |username|) <==> FirstFrom(uri, username, 0, a))
  }

  /** The password, which is at b once the user name has been replaced, likewise, for its first two occurrences. */
  ghost predicate PasswordAccounted(t: string, password: string, replacement: string, b: nat) {
    if password == "" then replacement == t
    else
      var picks := Picks(t, password, 2, 0);
      && OccursAt(t, password, b)
      && InPlace(t, 0, picks, |password|) && replacement == Patched(t, 0, picks, |password|, REPLACE_STR)
      && (Hidden(picks, |password|, b, |password|) <==> AmongFirstTwo(t, password, b))
  }

  /** What becomes of the secrets that a URI holds at a. */
  ghost predicate Accounted(uri: string, username: string, password: string, replacement: string, a: nat) {
    var t := WithoutUser(uri, username);
    && UserAccounted(uri, username, t, a)
    && PasswordAccounted(t, password, replacement, if username == "" then a + 1 else a + |REPLACE_STR| + 1)
  }

  ghost predicate EveryPlaceAccounted(uri: string, username: string, password: string, replacement: string) {
    && (exists a :: Located(uri, username, password, a))
    && (forall a :: Located(uri, username, password, a) ==> Accounted(uri, username, password, replacement, a))
  }

  /** What takes the place of a URI, told from what the split found in it: nothing but the marker if it is invalid, else
      a text in which the secrets found are accounted for at every place where the URI holds them; where the network
      location stands is one. */
  ghost predicate Outcome(parts: Parts, uri: string, replacement: string) {
    && (Invalid(parts) ==> replacement == "$encrypted$")
    && forall username, password :: Holds(parts, username, password) ==>
         && EveryPlaceAccounted(uri, username, password, replacement)
         && forall n :: Stands(parts, uri, n) ==> Located(uri, username, password, n)
  }

  /** In a whole text: the first URI of every unbroken run is replaced in that way if the split found a user name, a
      password or a colon in the network location, or failed; else it is left. */
  lemma EverySecretAccounted(split: Splitter, text: string, s: nat)
    requires LawfulSplit(split) && FirstOfItsWord(FindUri, text, s)
    ensures var uri := UriAt(text, s);
            var pieces := Pieces(FindUri, UriRule(split), text, 0);
            if MustRedact(split(uri)) then
              exists p :: p in pieces && p.start == s && p.end == s + |uri| && Outcome(split(uri), uri, p.replacement)
            else forall p :: p in pieces ==> p.start != s
  {
    var uri := UriAt(text, s);
    var pieces := Pieces(FindUri, UriRule(split), text, 0);
    if MustRedact(split(uri)) {
      EveryUriRedacted(split, text, s);
      var p :| p in pieces && p.start == s && RedactedUri(split, text, p);
      PieceIsUri(split, text, p);
      SecretsAccounted(split, uri, p.replacement);
    } else {
      forall p | p in pieces ensures p.start != s {
        OnlyUrisRedacted(split, text, p);
        PieceIsUri(split, text, p);
      }
    }
  }

  lemma PieceIsUri(split: Splitter, text: string, p: Piece)
    requires RedactedUri(split, text, p)
    ensures text[p.start..p.end] == UriAt(text, p.start)
  {
    SliceOfTail(text, p.start, 0, p.end - p.start);
  }

  lemma SecretsAccounted(split: Splitter, uri: string, replacement: string)
    requires LawfulSplit(split) && RedactedAs(split(uri), uri, replacement)
    ensures Outcome(split(uri), uri, replacement)
  {
    forall username, password | Holds(split(uri), username, password)
      ensures EveryPlaceAccounted(uri, username, password, replacement)
      ensures forall n :: Stands(split(uri), uri, n) ==> Located(uri, username, password, n)
    {
      HeldAccounted(split(uri), uri, username, password, replacement);
    }
  }

  lemma HeldAccounted(parts: Parts, uri: string, username: string, password: string, replacement: string)
    requires Holds(parts, username, password) && exists n :: Stands(parts, uri, n)
    requires replacement == HideSecrets(uri, username, password)
    ensures EveryPlaceAccounted(uri, username, password, replacement)
    ensures forall n :: Stands(parts, uri, n) ==> Located(uri, username, password, n)
  {
    forall n | Stands(parts, uri, n) ensures Located(uri, username, password, n) {
      StandsLocated(parts, uri, username, password, n);
    }
    forall a | Located(uri, username, password, a) ensures Accounted(uri, username, password, replacement, a) {
      SecretsHiddenExactly(uri, username, password, a);
    }
  }

  const RISKY: string := "http" + ("://" + ("u" + ":t@h"))
  const RISKY_TAIL: string := "://" + (REPLACE_STR + ":t@h")

  /** A short password that occurs twice before its place stays there: of http://u:t@h all that is hidden, besides the
      user name, are the two letters t of http. */
  lemma PasswordStays()
    ensures Located(RISKY, "u", "t", 7)
    ensures !AmongFirstTwo(WithoutUser(RISKY, "u"), "t", PasswordPlace("u", 7))
    ensures HideSecrets(RISKY, "u", "t") == "h" + REPLACE_STR + REPLACE_STR + "p" + RISKY_TAIL
  {
    RiskyPlaces();
    RiskyUser(RISKY, "http" + "://", ":t@h");
    assert WithoutUser(RISKY, "u") == "http" + RISKY_TAIL;
    TwiceInHttp(WithoutUser(RISKY, "u"), RISKY_TAIL);
    OnlyFirstTwo(WithoutUser(RISKY, "u"), PasswordPlace("u", 7));
    BothSteps(RISKY, "u", "t");
  }

  lemma RiskyPlaces()
    ensures Located(RISKY, "u", "t", 7) && RISKY == "http" + "://" + ("u" + ":t@h")
  {
    assert RISKY[7..8] == "u" && RISKY[9..10] == "t" && RISKY[8] == ':';
  }

  lemma RiskyUser(uri: string, pre: string, post: string)
    requires uri == pre + ("u" + post) && 'u' !in pre
    ensures WithoutUser(uri, "u") == pre + (REPLACE_STR + post)
  {
    forall j: nat | j < |pre| ensures !OccursAt(uri, "u", j) {
      assert uri[j..j + 1] == [pre[j]];
    }
    assert uri[|pre|..|pre| + 1] == "u" && uri[..|pre|] == pre && uri[|pre| + 1..] == post;
    ReplaceFirst(uri, "u", REPLACE_STR, 1, |pre|);
    assert Replace(post, "u", REPLACE_STR, 0) == post;
  }

  lemma BothSteps(uri: string, username: string, password: string)
    requires password != ""
    ensures HideSecrets(uri, username, password) == Replace(WithoutUser(uri, username), password, REPLACE_STR, 2)
  {
  }

  lemma OnlyFirstTwo(t: string, b: nat)
    requires FirstFrom(t, "t", 0, 1) && FirstFrom(t, "t", 2, 2) && b > 2
    ensures !AmongFirstTwo(t, "t", b)
  {
    assert |"t"| == 1;
    assert forall i: nat :: FirstFrom(t, "t", 0, i) ==> i == 1;
  }

  lemma TwiceInHttp(t: string, rest: string)
    requires t == "http" + rest
    ensures FirstFrom(t, "t", 0, 1) && FirstFrom(t, "t", 2, 2)
    ensures Replace(t, "t", REPLACE_STR, 2) == "h" + REPLACE_STR + REPLACE_STR + "p" + rest
  {
    assert t[0..1] == "h" && t[1..2] == "t" && t[2..3] == "t";
    ReplaceFirst(t, "t", REPLACE_STR, 2, 1);
    OnceInTp(t[2..], rest);
    assert t[..1] == "h";
    assert "h" + (REPLACE_STR + (REPLACE_STR + ("p" + rest))) == "h" + REPLACE_STR + REPLACE_STR + "p" + rest;
  }

  lemma OnceInTp(t: string, rest: string)
    requires t == "tp" + rest
    ensures Replace(t, "t", REPLACE_STR, 1) == REPLACE_STR + ("p" + rest)
  {
    assert t[0..1] == "t" && t[1..] == "p" + rest;
    ReplaceHere(t, "t", REPLACE_STR, 1);
    assert Replace(t[1..], "t", REPLACE_STR, 0) == t[1..];
  }
}
