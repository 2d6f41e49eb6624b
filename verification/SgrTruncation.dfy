/** Truncating event output without leaving terminal colours open.

    SGR control sequences (ECMA-48 section 8.3.117) are ESC [ parameters m, with the parameters made
    of digits and semicolons. */
module SgrTruncation {
  import opened Wrappers

  const ESC: char := '\U{1B}'
  const ELLIPSIS: char := '\U{2026}'
  const RESET: string := [ESC, '[', '0', 'm']

  predicate IsParameter(c: char) { '0' <= c <= '9' || c == ';' }

  /** The length of the run of parameter characters at the front. */
  function Parameters(s: string): (n: nat)
    ensures n <= |s| && (n < |s| ==> !IsParameter(s[n]))
    ensures forall i :: 0 <= i < n ==> IsParameter(s[i])
  {
    if s == "" || !IsParameter(s[0]) then 0 else 1 + Parameters(s[1..])
  }

  /** The length of the control sequence at the front, or 0. */
  function SgrLength(s: string): (n: nat)
    ensures n <= |s|
  {
    if |s| < 2 || s[0] != ESC || s[1] != '[' then 0
    else
      var p := Parameters(s[2..]);
      if 2 + p < |s| && s[2 + p] == 'm' then p + 3 else 0
  }

  /** A control sequence is ESC, an opening bracket, digits and semicolons, and an m. */
  lemma SgrLengthExactly(s: string, n: nat)
    requires n > 0
    ensures SgrLength(s) == n <==>
            && 3 <= n <= |s| && s[0] == '\U{1B}' && s[1] == '[' && s[n - 1] == 'm'
            && forall i :: 2 <= i < n - 1 ==> '0' <= s[i] <= '9' || s[i] == ';'
  {
    if |s| >= 2 {
      var p, tail := Parameters(s[2..]), s[2..];
      forall i | 2 <= i < |s| ensures s[i] == tail[i - 2] {
      }
    }
  }

  /** The control sequences of a text, from left to right. */
  function Sgr(s: string): seq<string>
    decreases |s|
  {
    if s == "" then []
    else
      var n := SgrLength(s);
      if n > 0 then [s[..n]] + Sgr(s[n..]) else Sgr(s[1..])
  }

  /** The first sequence found is the leftmost one, and the search goes on behind it; without any there is none. */
  lemma {:induction false} LeftmostFirst(s: string, i: nat)
    requires i <= |s| && forall j :: 0 <= j < i ==> SgrLength(s[j..]) == 0
    ensures i < |s| && SgrLength(s[i..]) > 0 ==>
              Sgr(s) == [s[i..][..SgrLength(s[i..])]] + Sgr(s[i..][SgrLength(s[i..])..])
    ensures i == |s| ==> Sgr(s) == []
    decreases i
  {
    if i == 0 {
      assert s[0..] == s;
    } else {
      assert s[0..] == s && s[1..][i - 1..] == s[i..];
      forall j | 0 <= j < i - 1 ensures SgrLength(s[1..][j..]) == 0 {
        assert s[1..][j..] == s[j + 1..];
      }
      LeftmostFirst(s[1..], i - 1);
    }
  }

  function Count(sequences: seq<string>): (n: nat)
    ensures n <= |sequences|
  {
    if sequences == [] then 0 else (if sequences[0] == RESET then 1 else 0) + Count(sequences[1..])
  }

  function ResetCount(s: string): nat { Count(Sgr(s)) }
  function SetCount(s: string): nat { |Sgr(s)| - Count(Sgr(s)) }

  function Resets(n: nat): string {
    if n == 0 then "" else RESET + Resets(n - 1)
  }

  /** The text up to the limit, its last character replaced by an ellipsis. */
  function Cut(s: string, max: nat): string
    requires 0 < max <= |s|
  {
    s[..max - 1] + [ELLIPSIS]
  }

  /** What the list views show. */
  function Shown(s: string, max: int): string {
    if max > 0 && |s| >= max then
      var cut := Cut(s, max);
      cut + Resets(if SetCount(cut) > ResetCount(cut) then SetCount(cut) - ResetCount(cut) else 0)
    else s
  }

  // ---------------------------------------------------------------- a cut never splits a sequence

  lemma {:induction false} ParametersBounded(s: string, t: string, i: nat)
    requires i < |s| && !IsParameter(s[i])
    ensures Parameters(s + t) == Parameters(s) <= i
    decreases i
  {
    if i == 0 || !IsParameter(s[0]) {
      assert (s + t)[0] == s[0];
    } else {
      assert (s + t)[1..] == s[1..] + t;
      ParametersBounded(s[1..], t, i - 1);
    }
  }

  predicate EndsInEllipsis(s: string) { s != "" && s[|s| - 1] == ELLIPSIS }

  lemma SgrLengthBeforeEllipsis(s: string, t: string)
    requires EndsInEllipsis(s)
    ensures SgrLength(s + t) == SgrLength(s) < |s|
  {
    if |s| >= 2 && s[0] == ESC && s[1] == '[' {
      assert s[1] != ELLIPSIS;
      assert (s + t)[2..] == s[2..] + t;
      ParametersBounded(s[2..], t, |s| - 3);
    }
  }

  /** Whatever follows an ellipsis, the sequences of the two parts are found separately. */
  lemma {:induction false} SgrAppend(s: string, t: string)
    requires EndsInEllipsis(s)
    ensures Sgr(s + t) == Sgr(s) + Sgr(t)
    decreases |s|
  {
    SgrLengthBeforeEllipsis(s, t);
    var n := SgrLength(s);
    var k := if n > 0 then n else 1;
    assert (s + t)[k..] == s[k..] + t;
    assert n > 0 ==> (s + t)[..n] == s[..n];
    if k < |s| {
      SgrAppend(s[k..], t);
    } else {
      assert s[k..] == "" && (s + t)[k..] == t;
    }
  }

  function Repeat(n: nat): seq<string> {
    if n == 0 then [] else [RESET] + Repeat(n - 1)
  }

  lemma OneReset(s: string, t: string)
    requires s == RESET + t
    ensures Sgr(s) == [RESET] + Sgr(t)
  {
    var tail := s[2..];
    assert tail[0] == '0' && tail[1..] == ['m'] + t;
    assert Parameters(tail[1..]) == 0;
    assert Parameters(tail) == 1;
    assert SgrLength(s) == 4 && s[..4] == RESET && s[4..] == t;
  }

  lemma MoreResets(n: nat)
    requires n > 0
    ensures Sgr(Resets(n)) == [RESET] + Sgr(Resets(n - 1))
  {
    OneReset(Resets(n), Resets(n - 1));
  }

  lemma {:induction false} SgrResets(n: nat)
    ensures Sgr(Resets(n)) == Repeat(n)
  {
    if n > 0 {
      SgrResets(n - 1);
      MoreResets(n);
    }
  }

  lemma {:induction false} CountAppend(a: seq<string>, b: seq<string>)
    ensures Count(a + b) == Count(a) + Count(b)
    decreases |a|
  {
    if a == [] {
      assert a + b == b;
    } else {
      assert (a + b)[1..] == a[1..] + b;
      CountAppend(a[1..], b);
    }
  }

  lemma {:induction false} CountRepeat(n: nat)
    ensures |Repeat(n)| == n && Count(Repeat(n)) == n
  {
    if n > 0 {
      CountRepeat(n - 1);
      assert Repeat(n)[1..] == Repeat(n - 1);
    }
  }

  /** The shown text: its visible part is exactly `max` characters, its sequences are those of that
      part followed by the appended resets, and so it has max(sets, resets) resets and the same sets. */
  lemma ShownBalanced(s: string, max: int)
    requires 0 < max <= |s|
    ensures var cut := Cut(s, max);
            var n := if SetCount(cut) > ResetCount(cut) then SetCount(cut) - ResetCount(cut) else 0;
            && |cut| == max && cut[..max - 1] == s[..max - 1]
            && Shown(s, max) == cut + Resets(n)
            && Sgr(Shown(s, max)) == Sgr(cut) + Repeat(n)
            && SetCount(Shown(s, max)) == SetCount(cut)
            && ResetCount(Shown(s, max)) == (if SetCount(cut) > ResetCount(cut) then SetCount(cut) else ResetCount(cut))
            && ResetCount(Shown(s, max)) >= SetCount(Shown(s, max))
  {
    var cut := Cut(s, max);
    var n := if SetCount(cut) > ResetCount(cut) then SetCount(cut) - ResetCount(cut) else 0;
    SgrAppend(cut, Resets(n));
    SgrResets(n);
    CountAppend(Sgr(cut), Repeat(n));
    CountRepeat(n);
  }

  // ---------------------------------------------------------------- what the sequences do

  /** The parameters in force after one more: zero ends them all, any other is added. */
  function Put(active: set<nat>, parameter: nat): set<nat> {
    if parameter == 0 then {} else active + {parameter}
  }

  /** Apply the parameters of one sequence from left to right.  They are separated by semicolons, an empty one
      is zero, and `read` is what has been read of the current one. */
  function Apply(parameters: string, read: nat, active: set<nat>): set<nat> {
    if parameters == "" then Put(active, read)
    else if parameters[0] == ';' then Apply(parameters[1..], 0, Put(active, read))
    else if '0' <= parameters[0] <= '9' then Apply(parameters[1..], 10 * read + (parameters[0] - '0') as nat, active)
    else Apply(parameters[1..], read, active)
  }

  /** A parameter is a decimal number; a semicolon ends one and begins the next. */
  lemma ReadsDecimals(c: char, rest: string, read: nat, active: set<nat>)
    ensures '0' <= c <= '9' ==>
              Apply([c] + rest, read, active) == Apply(rest, 10 * read + (c as int - '0' as int), active)
    ensures Apply([';'] + rest, read, active) == Apply(rest, 0, if read == 0 then {} else active + {read})
  {
    assert ([c] + rest)[1..] == rest && ([';'] + rest)[1..] == rest;
  }

  /** What the text between ESC [ and m does. */
  function ApplySequence(m: string, active: set<nat>): set<nat> {
    if |m| < 3 then active else Apply(m[2..|m| - 1], 0, active)
  }

  function Rendition(sequences: seq<string>, active: set<nat>): set<nat> {
    if sequences == [] then active else Rendition(sequences[1..], ApplySequence(sequences[0], active))
  }

  /** Nothing is in force at the end of the text. */
  predicate EndsClear(s: string) {
    Rendition(Sgr(s), {}) == {}
  }

  lemma {:induction false} RenditionAppend(a: seq<string>, b: seq<string>, active: set<nat>)
    ensures Rendition(a + b, active) == Rendition(b, Rendition(a, active))
    decreases |a|
  {
    if a == [] {
      assert a + b == b;
    } else {
      assert (a + b)[1..] == a[1..] + b;
      RenditionAppend(a[1..], b, ApplySequence(a[0], active));
    }
  }

  lemma ResetClears(active: set<nat>)
    ensures ApplySequence(RESET, active) == {}
  {
    assert |RESET| == 4 && RESET[2..3] == ['0'] && ['0'][1..] == "";
    assert Apply(['0'], 0, active) == Apply("", 0, active) == {};
  }

  lemma {:induction false} RepeatClears(n: nat, active: set<nat>)
    ensures Rendition(Repeat(n), active) == if n == 0 then active else {}
  {
    if n > 0 {
      assert Repeat(n)[1..] == Repeat(n - 1);
      ResetClears(active);
      RepeatClears(n - 1, {});
    }
  }

  /** Counting does not always leave the text clear: it does exactly when the cut has more sets than exact resets, or
      ends clear by itself. */
  lemma ClearExactlyWhen(s: string, max: int)
    requires 0 < max <= |s|
    ensures EndsClear(Shown(s, max)) <==>
            SetCount(Cut(s, max)) > ResetCount(Cut(s, max)) || EndsClear(Cut(s, max))
  {
    ShownBalanced(s, max);
    var cut := Cut(s, max);
    var n := if SetCount(cut) > ResetCount(cut) then SetCount(cut) - ResetCount(cut) else 0;
    RenditionAppend(Sgr(cut), Repeat(n), {});
    RepeatClears(n, Rendition(Sgr(cut), {}));
  }

  lemma {:induction false} NoSequences(s: string)
    requires ESC !in s
    ensures Sgr(s) == []
    decreases |s|
  {
    if s != "" {
      NoSequences(s[1..]);
    }
  }

  const RED: string := [ESC, '[', '3', '1', 'm']

  /** A reset followed by a colour balances by count, and leaves the colour on. */
  lemma OpenColourExample()
    ensures var s := RESET + (RED + "xx");
            |s| == 11 && Rendition(Sgr(Shown(s, 11)), {}) == {31} && !EndsClear(Shown(s, 11))
  {
    var s := RESET + (RED + "xx");
    var tail := "x" + [ELLIPSIS];
    var cut := Cut(s, 11);
    assert cut == RESET + (RED + tail);
    OneReset(cut, RED + tail);
    OneRed(tail);
    NoSequences(tail);
    assert [RESET, RED] == [RESET] + ([RED] + []);
    assert Sgr(cut) == [RESET, RED];
    assert |RESET| == 4 && |RED| == 5;
    assert [RESET, RED][1..] == [RED] && [RED][1..] == [];
    assert Count([RED]) == 0 && Count(Sgr(cut)) == 1;
    RedStays();
    ShownBalanced(s, 11);
    assert Sgr(cut) + Repeat(0) == Sgr(cut);
  }

  lemma OneRed(t: string)
    ensures Sgr(RED + t) == [RED] + Sgr(t)
  {
    var s := RED + t;
    var tail := s[2..];
    assert tail[0] == '3' && tail[1..][0] == '1' && tail[1..][1..] == ['m'] + t;
    assert Parameters(tail[1..][1..]) == 0;
    assert Parameters(tail[1..]) == 1;
    assert Parameters(tail) == 2;
    assert SgrLength(s) == 5 && s[..5] == RED && s[5..] == t;
  }

  lemma RedStays()
    ensures Rendition([RESET, RED], {}) == {31}
  {
    ResetClears({});
    assert RED[2..4] == ['3', '1'] && ['3', '1'][1..] == ['1'] && ['1'][1..] == "";
    assert Apply(['1'], 3, {}) == Apply("", 31, {}) == {31};
    assert Apply(['3', '1'], 0, {}) == Apply(['1'], 3, {});
    assert ApplySequence(RED, {}) == {31};
    assert [RESET, RED][1..] == [RED] && [RED][1..] == [];
    assert Rendition([RED], {}) == Rendition([], ApplySequence(RED, {}));
  }

  /** A reset written in another way clears as well, though it is counted as a set: ESC [ m and ESC [ 1 ; 0 m. */
  lemma OtherResets(active: set<nat>)
    ensures ApplySequence([ESC, '[', 'm'], active) == {} && [ESC, '[', 'm'] != RESET
    ensures ApplySequence([ESC, '[', '1', ';', '0', 'm'], active) == {}
  {
    assert [ESC, '[', 'm'][2..2] == "" && |RESET| == 4;
    var body := ['1', ';', '0'];
    assert [ESC, '[', '1', ';', '0', 'm'][2..5] == body;
    assert body[1..] == [';', '0'] && [';', '0'][1..] == ['0'] && ['0'][1..] == "";
    assert Apply(['0'], 0, Put(active, 1)) == Apply("", 0, Put(active, 1)) == {};
    assert Apply([';', '0'], 1, active) == Apply(['0'], 0, Put(active, 1));
  }

  // ---------------------------------------------------------------- the serializer

  /** One step of the scan, with `found` the sequences before the rest of the text. */
  lemma Advance(rest: string, found: seq<string>)
    requires rest != ""
    ensures var n := SgrLength(rest);
            found + Sgr(rest) == if n > 0 then (found + [rest[..n]]) + Sgr(rest[n..]) else found + Sgr(rest[1..])
  {
    var n := SgrLength(rest);
    if n > 0 {
      assert found + ([rest[..n]] + Sgr(rest[n..])) == (found + [rest[..n]]) + Sgr(rest[n..]);
    }
  }

  /** Tallies the control sequences, one match after another. */
  method Tally(text: string) returns (setCount: nat, resetCount: nat)
    ensures setCount == SetCount(text) && resetCount == ResetCount(text)
  {
    setCount, resetCount := 0, 0;
    var rest := text;
    ghost var found: seq<string> := [];
    while rest != ""
      invariant Sgr(text) == found + Sgr(rest)
      invariant resetCount == Count(found) && setCount == |found| - Count(found)
      decreases |rest|
    {
      Advance(rest, found);
      var n := SgrLength(rest);
      if n > 0 {
        var m := rest[..n];
        CountOneMore(found, m);
        found := found + [m];
        if m == RESET {
          resetCount := resetCount + 1;
        } else {
          setCount := setCount + 1;
        }
        rest := rest[n..];
      } else {
        rest := rest[1..];
      }
    }
    assert found + [] == found;
  }

  lemma CountOneMore(found: seq<string>, m: string)
    ensures Count(found + [m]) == Count(found) + if m == RESET then 1 else 0
  {
    CountAppend(found, [m]);
    assert [m][1..] == [];
  }

  /** The stdout field of a serialized event; `full` is a detail view or, for job events, a
      playbook-level event. */
  method Represent(stdout: Option<string>, full: bool, maxBytes: int) returns (r: Option<string>)
    ensures r == if full || stdout.None? then stdout else Some(Shown(stdout.value, maxBytes))
    ensures full || stdout.None? || maxBytes <= 0 || |stdout.value| < maxBytes ==> r == stdout
  {
    if full || stdout.None? || maxBytes <= 0 || |stdout.value| < maxBytes {
      return stdout;
    }
    var text := stdout.value[..maxBytes - 1] + [ELLIPSIS];
    var setCount, resetCount := Tally(text);
    text := text + Resets(if setCount > resetCount then setCount - resetCount else 0);
    return Some(text);
  }
}
