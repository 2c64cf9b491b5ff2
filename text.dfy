/**
 * The string operations the spider applies to scraped text: Python's
 * `str.strip()`, `str.split()` with no separator, `' '.join(...)`, and the
 * spider's `clean_text` built from them.
 *
 * Whitespace is what Python's `str.isspace` accepts; `strip()` and `split()`
 * use that same class of characters.
 */
module Text {
  import opened Wrappers

  /** Python's `str.isspace` on one character. */
  predicate IsSpace(c: char) {
    var n := c as int;
    (0x09 <= n <= 0x0D) || (0x1C <= n <= 0x20) || n == 0x85 || n == 0xA0
    || n == 0x1680 || (0x2000 <= n <= 0x200A) || n == 0x2028 || n == 0x2029
    || n == 0x202F || n == 0x205F || n == 0x3000
  }

  predicate NoSpace(s: string) {
    forall i :: 0 <= i < |s| ==> !IsSpace(s[i])
  }

  predicate AllSpace(s: string) {
    forall i :: 0 <= i < |s| ==> IsSpace(s[i])
  }

  /** `s.lstrip()`: what is left after dropping leading whitespace. */
  function TrimStart(s: string): (r: string)
    ensures |r| <= |s|
    ensures r == [] || !IsSpace(r[0])
  {
    if s != [] && IsSpace(s[0]) then TrimStart(s[1..]) else s
  }

  /** `s.rstrip()`: what is left after dropping trailing whitespace. */
  function TrimEnd(s: string): (r: string)
    ensures |r| <= |s|
    ensures r == [] || !IsSpace(r[|r| - 1])
  {
    if s != [] && IsSpace(s[|s| - 1]) then TrimEnd(s[..|s| - 1]) else s
  }

  /** `lstrip()` drops a whitespace-only prefix and keeps the rest. */
  lemma {:induction false} TrimStartDrops(s: string)
    ensures var r := TrimStart(s); r == s[|s| - |r|..] && AllSpace(s[..|s| - |r|])
    ensures TrimStart(s) == [] <==> AllSpace(s)
  {
    if s != [] && IsSpace(s[0]) {
      TrimStartDrops(s[1..]);
      var r := TrimStart(s);
      var k := |s| - |r|;
      assert s[1..][..k - 1] == s[1..k];
      assert forall i :: 1 <= i < k ==> s[..k][i] == s[1..k][i - 1];
    }
  }

  /** `rstrip()` drops a whitespace-only suffix and keeps the rest. */
  lemma {:induction false} TrimEndDrops(s: string)
    ensures var r := TrimEnd(s); r == s[..|r|] && AllSpace(s[|r|..])
    ensures TrimEnd(s) == [] <==> AllSpace(s)
  {
    if s != [] && IsSpace(s[|s| - 1]) {
      var p := s[..|s| - 1];
      TrimEndDrops(p);
      var r := TrimEnd(s);
      assert r == TrimEnd(p);
      assert p[..|r|] == s[..|r|];
      assert forall i :: |r| <= i < |p| ==> s[i] == p[i];
    }
  }

  /** `s.strip()`. */
  function Strip(s: string): (r: string)
    ensures r == [] || (!IsSpace(r[0]) && !IsSpace(r[|r| - 1]))
  {
    var t := TrimStart(s);
    var r := TrimEnd(t);
    assert r != [] ==> r[0] == t[0] by { TrimEndDrops(t); }
    r
  }

  /** `strip()` leaves nothing exactly when the string is all whitespace. */
  lemma StripEmpty(s: string)
    ensures Strip(s) == [] <==> AllSpace(s)
  {
    TrimStartDrops(s);
    TrimEndDrops(TrimStart(s));
  }

  /** The longest prefix of `s` that holds no whitespace. */
  function Word(s: string): (w: string)
    ensures |w| <= |s| && w == s[..|w|] && NoSpace(w)
    ensures |w| == |s| || IsSpace(s[|w|])
  {
    if s == [] || IsSpace(s[0]) then [] else [s[0]] + Word(s[1..])
  }

  /** Words in the sense of `split()`: non-empty and free of whitespace. */
  predicate Words(ws: seq<string>) {
    forall k :: 0 <= k < |ws| ==> ws[k] != [] && NoSpace(ws[k])
  }

  /** `s.split()`: the maximal runs of non-whitespace characters, in order. */
  function Split(s: string): (ws: seq<string>)
    ensures Words(ws)
    decreases |s|
  {
    var t := TrimStart(s);
    if t == [] then []
    else
      var w := Word(t);
      assert w != [] by { assert !IsSpace(t[0]); }
      var rest := Split(t[|w|..]);
      assert Words([w] + rest) by {
        forall k | 0 <= k < |rest| + 1 ensures ([w] + rest)[k] == if k == 0 then w else rest[k - 1] { }
      }
      [w] + rest
  }

  /** `' '.join(ws)`. */
  function Join(ws: seq<string>): string {
    if ws == [] then ""
    else if |ws| == 1 then ws[0]
    else ws[0] + " " + Join(ws[1..])
  }

  /**
   * A string as `clean_text` leaves it: no leading or trailing whitespace,
   * no whitespace other than the plain space, and never two whitespace
   * characters in a row.
   */
  predicate Normalized(s: string) {
    && (s == [] || (!IsSpace(s[0]) && !IsSpace(s[|s| - 1])))
    && (forall i :: 0 <= i < |s| && IsSpace(s[i]) ==> s[i] == ' ')
    && (forall i :: 0 <= i < |s| - 1 ==> !(IsSpace(s[i]) && IsSpace(s[i + 1])))
  }

  /** `clean_text(text)`: `''` for None, else `' '.join(text.strip().split())`. */
  function CleanText(text: Option<string>): (r: string)
    ensures Normalized(r)
  {
    match text
    case None => ""
    case Some(t) =>
      var ws := Split(Strip(t));
      JoinNormalized(ws);
      Join(ws)
  }

  lemma {:induction false} JoinNonEmpty(ws: seq<string>)
    requires Words(ws) && ws != []
    ensures Join(ws) != [] && !IsSpace(Join(ws)[0])
  {
    if |ws| > 1 {
      assert Join(ws) == ws[0] + " " + Join(ws[1..]);
      assert Join(ws)[0] == ws[0][0];
    }
  }

  /** Joining a word to a normalised string with one space gives a normalised string. */
  lemma NormalizedCons(w: string, s: string)
    requires w != [] && NoSpace(w) && s != [] && Normalized(s) && !IsSpace(s[0])
    ensures Normalized(w + " " + s)
  {
    var r := w + " " + s;
    forall i | 0 <= i < |r| && IsSpace(r[i]) ensures r[i] == ' ' {
      if i > |w| { assert r[i] == s[i - |w| - 1]; }
    }
    forall i | 0 <= i < |r| - 1 ensures !(IsSpace(r[i]) && IsSpace(r[i + 1])) {
      if i > |w| { assert r[i] == s[i - |w| - 1] && r[i + 1] == s[i - |w|]; }
      else if i == |w| { assert r[i + 1] == s[0]; }
    }
    assert r[|r| - 1] == s[|s| - 1];
  }

  /** Words joined by single spaces form a normalised string. */
  lemma {:induction false} JoinNormalized(ws: seq<string>)
    requires Words(ws)
    ensures Normalized(Join(ws))
  {
    if |ws| == 1 {
      assert Join(ws) == ws[0];
    } else if |ws| > 1 {
      JoinNormalized(ws[1..]);
      JoinNonEmpty(ws[1..]);
      NormalizedCons(ws[0], Join(ws[1..]));
    }
  }

  /** `split()` reads back a word that ends the string or is followed by whitespace. */
  lemma {:induction false} WordOfPrefix(w: string, rest: string)
    requires NoSpace(w) && (rest == [] || IsSpace(rest[0]))
    ensures Word(w + rest) == w
  {
    if w != [] {
      assert (w + rest)[1..] == w[1..] + rest;
      WordOfPrefix(w[1..], rest);
    } else {
      assert w + rest == rest;
    }
  }

  /** `split()` skips leading whitespace. */
  lemma SplitSkipsSpace(c: char, s: string)
    requires IsSpace(c)
    ensures Split([c] + s) == Split(s)
  {
    assert ([c] + s)[1..] == s;
    assert TrimStart([c] + s) == TrimStart(s);
  }

  /** `split()` reads off a leading word that ends the string or is followed by whitespace. */
  lemma SplitCons(w: string, rest: string)
    requires w != [] && NoSpace(w) && (rest == [] || IsSpace(rest[0]))
    ensures Split(w + rest) == [w] + Split(rest)
  {
    var s := w + rest;
    assert s[0] == w[0];
    assert TrimStart(s) == s;
    WordOfPrefix(w, rest);
    assert s[|w|..] == rest;
  }

  /** Splitting words joined by single spaces gives the words back. */
  lemma {:induction false} SplitJoin(ws: seq<string>)
    requires Words(ws)
    ensures Split(Join(ws)) == ws
  {
    if |ws| == 1 {
      SplitCons(ws[0], []);
      assert ws[0] + [] == ws[0];
    } else if |ws| > 1 {
      var w, tail := ws[0], ws[1..];
      assert Words(tail) by { forall k | 0 <= k < |tail| ensures tail[k] == ws[k + 1] { } }
      var rest := Join(tail);
      var spaced := [' '] + rest;
      assert Join(ws) == w + spaced;
      SplitCons(w, spaced);
      SplitSkipsSpace(' ', rest);
      SplitJoin(tail);
      calc {
        Split(Join(ws));
        Split(w + spaced);
        [w] + Split(spaced);
        [w] + Split(rest);
        [w] + tail;
        ws;
      }
    }
  }

  /** The part of a normalised string after a space is normalised and starts a word. */
  lemma NormalizedAfterSpace(s: string, k: nat)
    requires Normalized(s) && k < |s| && IsSpace(s[k])
    ensures k + 1 < |s| && Normalized(s[k + 1..]) && !IsSpace(s[k + 1])
  {
    var r := s[k + 1..];
    forall i | 0 <= i < |r| ensures r[i] == s[i + k + 1] { }
  }

  lemma JoinCons(w: string, ws: seq<string>)
    requires ws != []
    ensures Join([w] + ws) == w + " " + Join(ws)
  {
    assert ([w] + ws)[1..] == ws;
  }

  /** A string that starts with a non-whitespace character has at least one word. */
  lemma SplitNonEmpty(s: string)
    requires s != [] && !IsSpace(s[0])
    ensures Split(s) != []
  {
    assert TrimStart(s) == s;
  }

  /** One word, a space, and a string that is its own words rejoined: the whole is its words rejoined. */
  lemma JoinSplitCons(w: string, r: string)
    requires w != [] && NoSpace(w) && r != [] && !IsSpace(r[0])
    requires Join(Split(r)) == r
    ensures Join(Split(w + " " + r)) == w + " " + r
  {
    var after := [' '] + r;
    assert w + " " + r == w + after;
    SplitCons(w, after);
    SplitSkipsSpace(' ', r);
    SplitNonEmpty(r);
    JoinCons(w, Split(r));
  }

  /** A normalised string is its words joined by single spaces. */
  lemma {:induction false} JoinSplit(s: string)
    requires Normalized(s)
    ensures Join(Split(s)) == s
    decreases |s|
  {
    if s != [] {
      var w := Word(s);
      assert w != [] by { assert !IsSpace(s[0]); }
      var after := s[|w|..];
      assert s == w + after;
      if after == [] {
        SplitCons(w, []);
        assert w + [] == w;
        assert Join([w]) == w;
      } else {
        var k := |w|;
        NormalizedAfterSpace(s, k);
        var r := s[k + 1..];
        assert s[k] == ' ';
        assert s == w + " " + r;
        JoinSplit(r);
        JoinSplitCons(w, r);
      }
    }
  }

  /** Dropping leading whitespace commutes with appending a character when something is left. */
  lemma {:induction false} TrimStartAppend(s: string, c: char)
    requires !AllSpace(s)
    ensures TrimStart(s + [c]) == TrimStart(s) + [c]
  {
    if IsSpace(s[0]) {
      assert (s + [c])[1..] == s[1..] + [c];
      assert !AllSpace(s[1..]) by {
        var i :| 0 <= i < |s| && !IsSpace(s[i]);
        assert s[1..][i - 1] == s[i];
      }
      TrimStartAppend(s[1..], c);
    }
  }

  /** Nothing but whitespace, and a whitespace character appended, still leaves nothing. */
  lemma {:induction false} TrimStartAllSpace(s: string, c: char)
    requires AllSpace(s) && IsSpace(c)
    ensures TrimStart(s + [c]) == []
  {
    if s != [] {
      assert (s + [c])[1..] == s[1..] + [c];
      TrimStartAllSpace(s[1..], c);
    }
  }

  /** A trailing whitespace character does not change the leading word. */
  lemma {:induction false} WordAppendSpace(s: string, c: char)
    requires IsSpace(c)
    ensures Word(s + [c]) == Word(s)
  {
    if s != [] && !IsSpace(s[0]) {
      assert (s + [c])[1..] == s[1..] + [c];
      WordAppendSpace(s[1..], c);
    }
  }

  /** A trailing whitespace character does not change the words. */
  lemma {:induction false} SplitAppendSpace(s: string, c: char)
    requires IsSpace(c)
    ensures Split(s + [c]) == Split(s)
    decreases |s|
  {
    if AllSpace(s) {
      TrimStartAllSpace(s, c);
      TrimStartDrops(s);
    } else {
      var t := TrimStart(s);
      TrimStartAppend(s, c);
      TrimStartDrops(s);
      assert t != [];
      WordAppendSpace(t, c);
      var w := Word(t);
      assert w != [] by { assert !IsSpace(t[0]); }
      assert (t + [c])[|w|..] == t[|w|..] + [c];
      SplitAppendSpace(t[|w|..], c);
    }
  }

  /** Leading whitespace does not change the words. */
  lemma {:induction false} SplitTrimStart(s: string)
    ensures Split(TrimStart(s)) == Split(s)
  {
    var t := TrimStart(s);
    assert TrimStart(t) == t by { assert t == [] || !IsSpace(t[0]); }
  }

  /** Trailing whitespace does not change the words. */
  lemma {:induction false} SplitTrimEnd(s: string)
    ensures Split(TrimEnd(s)) == Split(s)
  {
    if s != [] && IsSpace(s[|s| - 1]) {
      var p := s[..|s| - 1];
      assert s == p + [s[|s| - 1]];
      SplitAppendSpace(p, s[|s| - 1]);
      SplitTrimEnd(p);
    }
  }

  /** `split()` ignores what `strip()` removes. */
  lemma SplitStrip(s: string)
    ensures Split(Strip(s)) == Split(s)
  {
    SplitTrimEnd(TrimStart(s));
    SplitTrimStart(s);
  }

  /** A normalised string has nothing to strip. */
  lemma StripNormalized(s: string)
    requires Normalized(s)
    ensures Strip(s) == s
  {
    assert TrimStart(s) == s;
    assert TrimEnd(s) == s;
  }

  /** `clean_text` leaves a string unchanged exactly when it is already normalised. */
  lemma CleanTextFixpoint(s: string)
    ensures CleanText(Some(s)) == s <==> Normalized(s)
  {
    if Normalized(s) {
      StripNormalized(s);
      JoinSplit(s);
    }
  }

  /** `clean_text` is idempotent. */
  lemma CleanTextIdempotent(text: Option<string>)
    ensures CleanText(Some(CleanText(text))) == CleanText(text)
  {
    CleanTextFixpoint(CleanText(text));
  }

  /** The words of the cleaned text are the words of the input, in order. */
  lemma CleanTextKeepsWords(t: string)
    ensures Split(CleanText(Some(t))) == Split(t)
  {
    SplitJoin(Split(Strip(t)));
    SplitStrip(t);
  }

  /** `clean_text` is `' '.join(text.split())`: the `strip()` before `split()` changes nothing. */
  lemma CleanTextIsJoinSplit(t: string)
    ensures CleanText(Some(t)) == Join(Split(t))
  {
    SplitStrip(t);
  }

  /** Visible Latin-1 characters: none of them is whitespace. */
  predicate Visible(c: char) {
    0x21 <= c as int <= 0xFF && c as int != 0x85 && c as int != 0xA0
  }

  lemma VisibleNoSpace(s: string)
    requires forall i :: 0 <= i < |s| ==> Visible(s[i])
    ensures NoSpace(s)
  {
  }

  lemma ExampleWordsHaveNoSpace()
    ensures NoSpace("Musterstra\U{DF}e") && NoSpace("12")
  {
    var street := "Musterstra\U{DF}e";
    forall i | 0 <= i < |street| ensures Visible(street[i]) { }
    VisibleNoSpace(street);
    forall i | 0 <= i < 2 ensures Visible("12"[i]) { }
    VisibleNoSpace("12");
  }

  lemma ExampleSplitNumber()
    ensures Split("   12\n") == ["12"]
  {
    ExampleWordsHaveNoSpace();
    var tail := "12" + "\n";
    assert "   12\n" == [' '] + ([' '] + ([' '] + tail));
    SplitSkipsSpace(' ', [' '] + ([' '] + tail));
    SplitSkipsSpace(' ', [' '] + tail);
    SplitSkipsSpace(' ', tail);
    SplitCons("12", "\n");
    assert "\n" == ['\n'] + [];
    SplitSkipsSpace('\n', []);
  }

  lemma ExampleSplit()
    ensures Split("  Musterstra\U{DF}e   12\n") == ["Musterstra\U{DF}e", "12"]
  {
    ExampleWordsHaveNoSpace();
    var street, gap := "Musterstra\U{DF}e", "   12\n";
    var line := [' '] + ([' '] + (street + gap));
    assert line == "  Musterstra\U{DF}e   12\n";
    SplitSkipsSpace(' ', [' '] + (street + gap));
    SplitSkipsSpace(' ', street + gap);
    SplitCons(street, gap);
    ExampleSplitNumber();
  }

  /** A street line with padding, a run of spaces and a newline comes out as its two words. */
  lemma CleanTextExample(line: string)
    requires line == "  Musterstra\U{DF}e   12\n"
    ensures CleanText(Some(line)) == "Musterstra\U{DF}e" + " " + "12"
  {
    var street, number := "Musterstra\U{DF}e", "12";
    CleanTextIsJoinSplit(line);
    ExampleSplit();
    assert Split(line) == [street] + [number];
    JoinCons(street, [number]);
  }
}
