/**
 `CleanInput` of main.go: lower-case the line, trim surrounding white space and
 split it into white-space separated fields, as `strings.ToLower`,
 `strings.TrimSpace` and `strings.Fields` do.

 Case mapping covers the ASCII letters only; white space is the set Go's
 `unicode.IsSpace` recognises.
 */
module Input {

  /** `unicode.IsSpace`: the code points with the Unicode White_Space property. */
  predicate IsSpace(c: char)
  {
    || ('\t' <= c <= '\r')
    || c == ' '
    || c == '\U{0085}'
    || c == '\U{00A0}'
    || c == '\U{1680}'
    || ('\U{2000}' <= c <= '\U{200A}')
    || c == '\U{2028}'
    || c == '\U{2029}'
    || c == '\U{202F}'
    || c == '\U{205F}'
    || c == '\U{3000}'
  }

  predicate IsUpper(c: char)
  {
    'A' <= c <= 'Z'
  }

  function ToLowerChar(c: char): char
  {
    if IsUpper(c) then (c as int - 'A' as int + 'a' as int) as char else c
  }

  function ToLower(s: string): string
  {
    seq(|s|, i requires 0 <= i < |s| => ToLowerChar(s[i]))
  }

  function TrimLeft(s: string): string
    decreases |s|
  {
    if s != [] && IsSpace(s[0]) then TrimLeft(s[1..]) else s
  }

  function TrimRight(s: string): string
    decreases |s|
  {
    if s != [] && IsSpace(s[|s| - 1]) then TrimRight(s[..|s| - 1]) else s
  }

  function TrimSpace(s: string): string
  {
    TrimRight(TrimLeft(s))
  }

  /** A field: a non-empty run of characters none of which is white space. */
  predicate IsToken(w: string)
  {
    w != [] && forall c :: c in w ==> !IsSpace(c)
  }

  /** The characters of `s` that are not white space, in order. */
  function NonSpace(s: string): string
    decreases |s|
  {
    if s == [] then []
    else (if IsSpace(s[0]) then [] else [s[0]]) + NonSpace(s[1..])
  }

  /** The tokens laid end to end. */
  function Concat(ws: seq<string>): string
    decreases |ws|
  {
    if ws == [] then [] else ws[0] + Concat(ws[1..])
  }

  /** `strings.Join(ws, " ")`. */
  function Join(ws: seq<string>): string
    decreases |ws|
  {
    if ws == [] then []
    else if |ws| == 1 then ws[0]
    else ws[0] + " " + Join(ws[1..])
  }

  /**
   The white-space-separated words of `s` written with one space between
   consecutive words and none around them: leading white space is skipped,
   non-space characters are copied, and a run of white space after a word
   becomes one `' '` when another word follows it.
   */
  function Squeeze(s: string): string
    decreases |s|
  {
    if s == [] then []
    else if IsSpace(s[0]) then Squeeze(s[1..])
    else [s[0]] + Gap(s[1..])
  }

  /** `Squeeze` of the rest of a line, just after a non-space character. */
  function Gap(s: string): string
    decreases |s|
  {
    if s == [] then []
    else if IsSpace(s[0]) then (if Squeeze(s[1..]) == [] then [] else " " + Squeeze(s[1..]))
    else [s[0]] + Gap(s[1..])
  }

  /** The longest prefix of `s` without white space. */
  function Word(s: string): (w: string)
    ensures w <= s
    ensures forall c :: c in w ==> !IsSpace(c)
    ensures |w| < |s| ==> IsSpace(s[|w|])
    decreases |s|
  {
    if s == [] || IsSpace(s[0]) then [] else [s[0]] + Word(s[1..])
  }

  /**
   `strings.Fields`: every field is a non-empty run without white space, the
   fields laid end to end are exactly the non-space characters of `s`, and
   joined by single spaces they are `Squeeze(s)`, which places the splits at
   the white-space runs of `s` (see `FieldsUnique`).
   */
  function Fields(s: string): (r: seq<string>)
    ensures forall i :: 0 <= i < |r| ==> IsToken(r[i])
    ensures Concat(r) == NonSpace(s)
    ensures Join(r) == Squeeze(s)
    decreases |s|
  {
    if s == [] then []
    else if IsSpace(s[0]) then Fields(s[1..])
    else
      var w := Word(s);
      assert s == w + s[|w|..];
      FieldsCons(s, w, s[|w|..], Fields(s[|w|..]));
      [w] + Fields(s[|w|..])
  }

  /**
   `CleanInput` of main.go: the tokens are non-empty, hold neither white space
   nor upper-case letters, and joined by single spaces they are the
   lower-cased line with its white space squeezed.
   */
  function CleanInput(text: string): (r: seq<string>)
    ensures forall i :: 0 <= i < |r| ==> IsToken(r[i])
    ensures forall i, c :: 0 <= i < |r| && c in r[i] ==> !IsUpper(c)
    ensures Join(r) == Squeeze(ToLower(text))
  {
    var lower := ToLower(text);
    ToLowerHasNoUpper(text);
    NonSpaceTrimSpace(lower);
    SqueezeTrimSpace(lower);
    NoUpperInFields(lower, Fields(TrimSpace(lower)));
    Fields(TrimSpace(lower))
  }

  // ---------------------------------------------------------------------------
  // Facts about the helpers.
  // ---------------------------------------------------------------------------

  lemma {:induction false} GapOfToken(x: string, rest: string)
    requires forall c :: c in x ==> !IsSpace(c)
    ensures Gap(x + rest) == x + Gap(rest)
    decreases |x|
  {
    if x == [] {
      assert x + rest == rest;
    } else {
      assert (x + rest)[0] == x[0] && x[0] in x;
      assert (x + rest)[1..] == x[1..] + rest;
      assert forall c :: c in x[1..] ==> c in x;
      GapOfToken(x[1..], rest);
      assert [x[0]] + (x[1..] + Gap(rest)) == x + Gap(rest);
    }
  }

  lemma SqueezeOfToken(w: string, rest: string)
    requires IsToken(w)
    ensures Squeeze(w + rest) == w + Gap(rest)
  {
    var s := w + rest;
    assert s[0] == w[0] && w[0] in w;
    assert s[1..] == w[1..] + rest;
    assert forall c :: c in w[1..] ==> c in w;
    GapOfToken(w[1..], rest);
    assert [w[0]] + (w[1..] + Gap(rest)) == w + Gap(rest);
  }

  lemma GapAtSpace(rest: string)
    requires rest == [] || IsSpace(rest[0])
    ensures Gap(rest) == if Squeeze(rest) == [] then [] else " " + Squeeze(rest)
  {
  }

  /** A word followed by white space or the end, then the fields of the rest. */
  lemma FieldsCons(s: string, w: string, rest: string, fs: seq<string>)
    requires s == w + rest && IsToken(w)
    requires rest == [] || IsSpace(rest[0])
    requires forall i :: 0 <= i < |fs| ==> IsToken(fs[i])
    requires Concat(fs) == NonSpace(rest) && Join(fs) == Squeeze(rest)
    ensures forall i :: 0 <= i < |[w] + fs| ==> IsToken(([w] + fs)[i])
    ensures Concat([w] + fs) == NonSpace(s)
    ensures Join([w] + fs) == Squeeze(s)
  {
    var r := [w] + fs;
    assert r[0] == w && r[1..] == fs;
    assert Concat(r) == w + Concat(fs);
    NonSpaceAppend(w, rest);
    NonSpaceOfToken(w);
    SqueezeCons(w, rest, fs);
  }

  lemma SqueezeCons(w: string, rest: string, fs: seq<string>)
    requires IsToken(w)
    requires rest == [] || IsSpace(rest[0])
    requires forall i :: 0 <= i < |fs| ==> IsToken(fs[i])
    requires Join(fs) == Squeeze(rest)
    ensures Join([w] + fs) == Squeeze(w + rest)
  {
    JoinCons(w, fs);
    SqueezeOfToken(w, rest);
    GapAtSpace(rest);
  }

  lemma JoinCons(w: string, ws: seq<string>)
    requires forall i :: 0 <= i < |ws| ==> IsToken(ws[i])
    ensures Join([w] + ws) == if ws == [] then w else w + " " + Join(ws)
    ensures Join(ws) == [] <==> ws == []
  {
    assert ([w] + ws)[0] == w && ([w] + ws)[1..] == ws;
    if ws != [] {
      assert IsToken(ws[0]);
    }
  }

  /** A string of white space only squeezes to nothing. */
  lemma {:induction false} SqueezeSpaces(p: string)
    requires forall i :: 0 <= i < |p| ==> IsSpace(p[i])
    ensures Squeeze(p) == []
    decreases |p|
  {
    if p != [] {
      assert forall i :: 0 <= i < |p[1..]| ==> p[1..][i] == p[i + 1];
      SqueezeSpaces(p[1..]);
    }
  }

  /** Trailing white space changes neither `Squeeze` nor `Gap`. */
  lemma {:induction false} SqueezeSpaceSuffix(x: string, p: string)
    requires forall i :: 0 <= i < |p| ==> IsSpace(p[i])
    ensures Squeeze(x + p) == Squeeze(x) && Gap(x + p) == Gap(x)
    decreases |x|
  {
    if x == [] {
      assert x + p == p;
      SqueezeSpaces(p);
      if p != [] {
        assert forall i :: 0 <= i < |p[1..]| ==> p[1..][i] == p[i + 1];
        SqueezeSpaces(p[1..]);
      }
    } else {
      assert (x + p)[0] == x[0];
      assert (x + p)[1..] == x[1..] + p;
      SqueezeSpaceSuffix(x[1..], p);
    }
  }

  lemma {:induction false} SqueezeTrimLeft(s: string)
    ensures Squeeze(TrimLeft(s)) == Squeeze(s)
    decreases |s|
  {
    if s != [] && IsSpace(s[0]) {
      SqueezeTrimLeft(s[1..]);
    }
  }

  lemma {:induction false} SqueezeTrimRight(s: string)
    ensures Squeeze(TrimRight(s)) == Squeeze(s)
    decreases |s|
  {
    if s != [] && IsSpace(s[|s| - 1]) {
      var init := s[..|s| - 1];
      SqueezeTrimRight(init);
      assert s == init + [s[|s| - 1]];
      SqueezeSpaceSuffix(init, [s[|s| - 1]]);
    }
  }

  /** Trimming does not change the squeezed form. */
  lemma SqueezeTrimSpace(s: string)
    ensures Squeeze(TrimSpace(s)) == Squeeze(s)
  {
    SqueezeTrimRight(TrimLeft(s));
    SqueezeTrimLeft(s);
  }

  lemma NoUpperInFields(s: string, r: seq<string>)
    requires Concat(r) == NonSpace(s)
    requires forall c :: c in s ==> !IsUpper(c)
    ensures forall i, c :: 0 <= i < |r| && c in r[i] ==> !IsUpper(c)
  {
    forall i, c | 0 <= i < |r| && c in r[i] ensures !IsUpper(c) {
      InConcat(r, i, c);
      InNonSpace(s, c);
    }
  }

  lemma {:induction false} NonSpaceAppend(a: string, b: string)
    ensures NonSpace(a + b) == NonSpace(a) + NonSpace(b)
    decreases |a|
  {
    if a == [] {
      assert a + b == b;
    } else {
      assert (a + b)[0] == a[0];
      assert (a + b)[1..] == a[1..] + b;
      NonSpaceAppend(a[1..], b);
    }
  }

  lemma {:induction false} NonSpaceOfToken(w: string)
    requires forall c :: c in w ==> !IsSpace(c)
    ensures NonSpace(w) == w
    decreases |w|
  {
    if w != [] {
      assert w[0] in w;
      NonSpaceOfToken(w[1..]);
    }
  }

  /** `NonSpace(s)` is empty exactly when every character of `s` is white space. */
  lemma {:induction false} NonSpaceEmpty(s: string)
    ensures NonSpace(s) == [] <==> forall i :: 0 <= i < |s| ==> IsSpace(s[i])
    decreases |s|
  {
    if s != [] {
      NonSpaceEmpty(s[1..]);
      if forall i :: 0 <= i < |s[1..]| ==> IsSpace(s[1..][i]) {
        if IsSpace(s[0]) {
          forall i | 0 <= i < |s| ensures IsSpace(s[i]) {
            if i > 0 { assert s[i] == s[1..][i - 1]; }
          }
        }
      } else {
        var j :| 0 <= j < |s[1..]| && !IsSpace(s[1..][j]);
        assert s[j + 1] == s[1..][j];
      }
    }
  }

  lemma {:induction false} NonSpaceTrimLeft(s: string)
    ensures NonSpace(TrimLeft(s)) == NonSpace(s)
    decreases |s|
  {
    if s != [] && IsSpace(s[0]) {
      NonSpaceTrimLeft(s[1..]);
    }
  }

  lemma {:induction false} NonSpaceTrimRight(s: string)
    ensures NonSpace(TrimRight(s)) == NonSpace(s)
    decreases |s|
  {
    if s != [] && IsSpace(s[|s| - 1]) {
      var init := s[..|s| - 1];
      NonSpaceTrimRight(init);
      assert s == init + [s[|s| - 1]];
      NonSpaceAppend(init, [s[|s| - 1]]);
      assert NonSpace([s[|s| - 1]]) == [];
    }
  }

  /** Trimming only removes white space. */
  lemma NonSpaceTrimSpace(s: string)
    ensures NonSpace(TrimSpace(s)) == NonSpace(s)
  {
    NonSpaceTrimRight(TrimLeft(s));
    NonSpaceTrimLeft(s);
  }

  lemma {:induction false} InNonSpace(s: string, c: char)
    requires c in NonSpace(s)
    ensures c in s
    decreases |s|
  {
    if c != s[0] {
      InNonSpace(s[1..], c);
    }
  }

  lemma {:induction false} InConcat(ws: seq<string>, i: nat, c: char)
    requires i < |ws| && c in ws[i]
    ensures c in Concat(ws)
    decreases |ws|
  {
    if i > 0 {
      InConcat(ws[1..], i - 1, c);
    }
  }

  lemma {:induction false} ConcatEmpty(ws: seq<string>)
    requires forall i :: 0 <= i < |ws| ==> IsToken(ws[i])
    ensures Concat(ws) == [] <==> ws == []
  {
    if ws != [] {
      assert IsToken(ws[0]);
    }
  }

  /** A lower-cased string holds no upper-case letter. */
  lemma ToLowerHasNoUpper(s: string)
    ensures forall c :: c in ToLower(s) ==> !IsUpper(c)
  {
    forall c | c in ToLower(s) ensures !IsUpper(c) {
      var i :| 0 <= i < |s| && ToLower(s)[i] == c;
    }
  }

  // ---------------------------------------------------------------------------
  // Properties of CleanInput.
  // ---------------------------------------------------------------------------

  /** The line yields no token exactly when it is all white space (the REPL then skips it). */
  lemma CleanInputEmpty(text: string)
    ensures CleanInput(text) == [] <==> forall i :: 0 <= i < |text| ==> IsSpace(text[i])
  {
    var lower := ToLower(text);
    var r := Fields(TrimSpace(lower));
    ConcatEmpty(r);
    NonSpaceTrimSpace(lower);
    NonSpaceEmpty(lower);
    assert forall i :: 0 <= i < |text| ==> (IsSpace(lower[i]) <==> IsSpace(text[i]));
  }

  lemma {:induction false} ToLowerOfLower(s: string)
    requires forall c :: c in s ==> !IsUpper(c)
    ensures ToLower(s) == s
  {
    assert forall i :: 0 <= i < |s| ==> s[i] in s;
  }

  lemma {:induction false} WordOfToken(w: string, rest: string)
    requires IsToken(w)
    requires rest == [] || IsSpace(rest[0])
    ensures Word(w + rest) == w
    decreases |w|
  {
    var s := w + rest;
    assert s[0] == w[0] && w[0] in w;
    if |w| == 1 {
      assert s[1..] == rest;
    } else {
      assert s[1..] == w[1..] + rest;
      assert forall c :: c in w[1..] ==> c in w;
      WordOfToken(w[1..], rest);
    }
  }

  lemma {:induction false} FieldsOfJoin(ws: seq<string>)
    requires forall i :: 0 <= i < |ws| ==> IsToken(ws[i])
    ensures Fields(Join(ws)) == ws
    decreases |ws|
  {
    if ws == [] {
    } else if |ws| == 1 {
      var w := ws[0];
      assert w == w + [];
      WordOfToken(w, []);
      assert w[|w|..] == [];
    } else {
      var w := ws[0];
      var tail := " " + Join(ws[1..]);
      var s := w + tail;
      assert Join(ws) == s;
      assert s[0] == w[0] && w[0] in w;
      WordOfToken(w, tail);
      assert s[|w|..] == tail;
      assert tail[1..] == Join(ws[1..]);
      FieldsOfJoin(ws[1..]);
      assert [w] + ws[1..] == ws;
    }
  }

  /**
   `Fields(s)` is the only sequence of fields that joins to `Squeeze(s)`:
   the contract of `Fields` leaves no choice of where to split.
   */
  lemma FieldsUnique(s: string, r: seq<string>)
    requires forall i :: 0 <= i < |r| ==> IsToken(r[i])
    requires Join(r) == Squeeze(s)
    ensures r == Fields(s)
  {
    FieldsOfJoin(r);
    FieldsOfJoin(Fields(s));
  }

  lemma {:induction false} JoinEnds(ws: seq<string>)
    requires forall i :: 0 <= i < |ws| ==> IsToken(ws[i])
    ensures Join(ws) != [] ==> !IsSpace(Join(ws)[0]) && !IsSpace(Join(ws)[|Join(ws)| - 1])
    ensures forall c :: c in Join(ws) ==> c == ' ' || exists i :: 0 <= i < |ws| && c in ws[i]
    decreases |ws|
  {
    if |ws| == 1 {
      assert ws[0][0] in ws[0] && ws[0][|ws[0]| - 1] in ws[0];
    } else if |ws| > 1 {
      JoinEnds(ws[1..]);
      var s := ws[0] + " " + Join(ws[1..]);
      assert s[0] == ws[0][0] && ws[0][0] in ws[0];
      assert s[|s| - 1] == Join(ws[1..])[|Join(ws[1..])| - 1];
      forall c | c in s && c != ' ' ensures exists i :: 0 <= i < |ws| && c in ws[i] {
        if c in ws[0] {
        } else {
          assert c in Join(ws[1..]);
          var j :| 0 <= j < |ws[1..]| && c in ws[1..][j];
          assert c in ws[j + 1];
        }
      }
    }
  }

  /**
   Idempotence under re-joining: cleaning the single-space join of a cleaned
   line gives back the same tokens.
   */
  lemma CleanInputRejoin(text: string)
    ensures CleanInput(Join(CleanInput(text))) == CleanInput(text)
  {
    var ws := CleanInput(text);
    var j := Join(ws);
    JoinEnds(ws);
    forall c | c in j ensures !IsUpper(c) {
      if c != ' ' {
        var i :| 0 <= i < |ws| && c in ws[i];
      }
    }
    ToLowerOfLower(j);
    assert TrimLeft(j) == j;
    assert TrimRight(j) == j;
    FieldsOfJoin(ws);
  }

  /** A line that is its tokens joined by single spaces, padded with white space on both sides. */
  lemma {:induction false} CleanPadded(pre: string, ws: seq<string>, post: string)
    requires forall i :: 0 <= i < |pre| ==> IsSpace(pre[i])
    requires forall i :: 0 <= i < |post| ==> IsSpace(post[i])
    requires forall i :: 0 <= i < |ws| ==> IsToken(ws[i])
    requires forall i, c :: 0 <= i < |ws| && c in ws[i] ==> !IsUpper(c)
    ensures CleanInput(pre + Join(ws) + post) == ws
  {
    var j := Join(ws);
    var s := pre + j + post;
    JoinEnds(ws);
    forall c | c in s ensures !IsUpper(c) {
      if c in j && c != ' ' {
        var i :| 0 <= i < |ws| && c in ws[i];
      }
    }
    ToLowerOfLower(s);
    if ws == [] {
      assert s == (pre + post) + [];
      TrimLeftSpaces(pre + post, []);
    } else {
      assert (j + post)[0] == j[0];
      TrimLeftSpaces(pre, j + post);
      assert pre + j + post == pre + (j + post);
      TrimRightSpaces(j, post);
      FieldsOfJoin(ws);
    }
  }

  lemma {:induction false} TrimLeftSpaces(pre: string, s: string)
    requires forall i :: 0 <= i < |pre| ==> IsSpace(pre[i])
    requires s == [] || !IsSpace(s[0])
    ensures TrimLeft(pre + s) == s
    decreases |pre|
  {
    if pre == [] {
      assert pre + s == s;
    } else {
      assert (pre + s)[0] == pre[0];
      assert (pre + s)[1..] == pre[1..] + s;
      TrimLeftSpaces(pre[1..], s);
    }
  }

  lemma {:induction false} TrimRightSpaces(s: string, post: string)
    requires forall i :: 0 <= i < |post| ==> IsSpace(post[i])
    requires s == [] || !IsSpace(s[|s| - 1])
    ensures TrimRight(s + post) == s
    decreases |post|
  {
    if post == [] {
      assert s + post == s;
    } else {
      var t := s + post;
      assert t[|t| - 1] == post[|post| - 1];
      assert t[..|t| - 1] == s + post[..|post| - 1];
      TrimRightSpaces(s, post[..|post| - 1]);
    }
  }

  /** The first case of the repository's unit test. */
  lemma CleanInputHelloWorld()
    ensures CleanInput("  hello world   ") == ["hello", "world"]
  {
    var ws := ["hello", "world"];
    assert forall i :: 0 <= i < |ws| ==> IsToken(ws[i]);
    assert forall i, c :: 0 <= i < |ws| && c in ws[i] ==> !IsUpper(c);
    assert Join(ws[1..]) == "world";
    assert "  hello world   " == "  " + Join(ws) + "   ";
    CleanPadded("  ", ws, "   ");
  }

  /** The second case of the repository's unit test. */
  lemma CleanInputHelloMyWorld()
    ensures CleanInput("  hello my world   ") == ["hello", "my", "world"]
  {
    var ws := ["hello", "my", "world"];
    assert forall i :: 0 <= i < |ws| ==> IsToken(ws[i]);
    assert forall i, c :: 0 <= i < |ws| && c in ws[i] ==> !IsUpper(c);
    assert Join(ws[2..]) == "world";
    assert Join(ws[1..]) == "my world";
    assert "  hello my world   " == "  " + Join(ws) + "   ";
    CleanPadded("  ", ws, "   ");
  }
}
