/** The proxy-path slug derived from an API's name when it is registered
    (src/app/api/marketplace/add/route.ts:72): lower-case, a regular-expression
    replacement producing '-', then removal of every character outside
    [a-z0-9-].

    The first replacement is written `/\\s+/g`. In a regular-expression literal
    `\\` is an escaped backslash, so the pattern matches a backslash followed by
    one or more 's', not a run of whitespace. `Literal` models the line as
    written; `Normalize` models the evidently intended `/\s+/g`, under which
    every whitespace run becomes one '-'. The registration route uses
    `Normalize`. */
module Slug {
  import opened Text

  /** The characters `[a-z0-9-]` that survive the final replacement. */
  predicate IsSlugChar(c: char) {
    'a' <= c <= 'z' || '0' <= c <= '9' || c == '-'
  }

  predicate IsSlug(s: string) {
    forall i :: 0 <= i < |s| ==> IsSlugChar(s[i])
  }

  /** `.replace(/[^a-z0-9-]/g, '')`: keeps exactly the slug characters, in order. */
  function KeepSlugChars(s: string): (r: string)
    ensures IsSlug(r)
    ensures |r| <= |s|
  {
    if s == [] then []
    else
      (if IsSlugChar(s[0]) then [s[0]] else []) + KeepSlugChars(s[1..])
  }

  lemma {:induction false} KeepSlugCharsAppend(a: string, b: string)
    ensures KeepSlugChars(a + b) == KeepSlugChars(a) + KeepSlugChars(b)
    decreases |a|
  {
    if a != [] {
      assert (a + b)[0] == a[0];
      assert (a + b)[1..] == a[1..] + b;
      KeepSlugCharsAppend(a[1..], b);
    } else {
      assert a + b == b;
    }
  }

  /** A string made of slug characters is left as it is. */
  lemma {:induction false} KeepSlugCharsOfSlug(s: string)
    requires IsSlug(s)
    ensures KeepSlugChars(s) == s
    decreases |s|
  {
    if s != [] {
      KeepSlugCharsOfSlug(s[1..]);
    }
  }

  /** A character outside [a-z0-9-] is deleted wherever it stands. */
  lemma {:induction false} KeepSlugCharsDrops(a: string, c: char, b: string)
    requires !IsSlugChar(c)
    ensures KeepSlugChars(a + [c] + b) == KeepSlugChars(a) + KeepSlugChars(b)
  {
    KeepSlugCharsAppend(a + [c], b);
    KeepSlugCharsAppend(a, [c]);
    assert [c][1..] == [];
  }

  /** The literal `.replace(/\\s+/g, '-')`, scanning left to right: a backslash
      followed by 's' starts a match that becomes one '-' and swallows the
      following run of 's' (`skipping`); every other character is kept. */
  function ReplaceBackslashRuns(s: string, skipping: bool): string
    decreases |s|
  {
    if s == [] then []
    else if skipping && s[0] == 's' then ReplaceBackslashRuns(s[1..], true)
    else if s[0] == '\\' && |s| > 1 && s[1] == 's' then "-" + ReplaceBackslashRuns(s[2..], true)
    else [s[0]] + ReplaceBackslashRuns(s[1..], false)
  }

  /** The intended `.replace(/\s+/g, '-')`, scanning left to right: the first
      character of each whitespace run becomes '-', the rest of the run
      (`inRun`) is dropped; every other character is kept. */
  function CollapseWhitespace(s: string, inRun: bool): string
    decreases |s|
  {
    if s == [] then []
    else if IsJsWhitespace(s[0]) then
      (if inRun then [] else "-") + CollapseWhitespace(s[1..], true)
    else [s[0]] + CollapseWhitespace(s[1..], false)
  }

  /** The slug exactly as add/route.ts:72 computes it. */
  function Literal(name: string): (r: string)
    ensures IsSlug(r)
  {
    KeepSlugChars(ReplaceBackslashRuns(LowerAscii(name), false))
  }

  /** The slug with the intended whitespace-to-hyphen replacement. */
  function Normalize(name: string): (r: string)
    ensures IsSlug(r)
  {
    KeepSlugChars(CollapseWhitespace(LowerAscii(name), false))
  }

  /** Slug characters are untouched by lower-casing and by both replacements. */
  lemma {:induction false} SlugIsFixed(s: string)
    requires IsSlug(s)
    ensures LowerAscii(s) == s
    ensures ReplaceBackslashRuns(s, false) == s
    ensures CollapseWhitespace(s, false) == s
    ensures KeepSlugChars(s) == s
    decreases |s|
  {
    if s != [] {
      assert IsSlugChar(s[0]);
      SlugIsFixed(s[1..]);
    }
  }

  /** Deriving the slug of a slug changes nothing. */
  lemma LiteralIdempotent(name: string)
    ensures Literal(Literal(name)) == Literal(name)
  {
    SlugIsFixed(Literal(name));
  }

  lemma NormalizeIdempotent(name: string)
    ensures Normalize(Normalize(name)) == Normalize(name)
  {
    SlugIsFixed(Normalize(name));
  }

  /** One step of the literal replacement over `x + [c] + y`, read off `x`. */
  lemma {:induction false} ReplaceStep(x: string, b: bool, c: char, y: string)
    requires c != '\\' && c != 's' && x != []
    ensures b && x[0] == 's'
            ==> ReplaceBackslashRuns(x + [c] + y, b) == ReplaceBackslashRuns(x[1..] + [c] + y, true)
    ensures !(b && x[0] == 's') && x[0] == '\\' && |x| > 1 && x[1] == 's'
            ==> ReplaceBackslashRuns(x + [c] + y, b) == "-" + ReplaceBackslashRuns(x[2..] + [c] + y, true)
    ensures !(b && x[0] == 's') && !(x[0] == '\\' && |x| > 1 && x[1] == 's')
            ==> ReplaceBackslashRuns(x + [c] + y, b) == [x[0]] + ReplaceBackslashRuns(x[1..] + [c] + y, false)
  {
    var s := x + [c] + y;
    assert s[0] == x[0];
    assert s[1..] == x[1..] + [c] + y;
    assert |x| > 1 ==> s[1] == x[1] && s[2..] == x[2..] + [c] + y;
    assert |x| == 1 ==> s[1] == c;
  }

  /** A character that is neither '\\' nor 's' ends any match, so it splits
      the literal replacement into independent halves. */
  lemma {:induction false} ReplaceBackslashRunsSplit(x: string, b: bool, c: char, y: string)
    requires c != '\\' && c != 's'
    ensures ReplaceBackslashRuns(x + [c] + y, b)
         == ReplaceBackslashRuns(x, b) + [c] + ReplaceBackslashRuns(y, false)
    decreases |x|
  {
    if x == [] {
      assert x + [c] + y == [c] + y;
      assert ([c] + y)[1..] == y;
    } else {
      ReplaceStep(x, b, c, y);
      if b && x[0] == 's' {
        ReplaceBackslashRunsSplit(x[1..], true, c, y);
      } else if x[0] == '\\' && |x| > 1 && x[1] == 's' {
        ReplaceBackslashRunsSplit(x[2..], true, c, y);
      } else {
        ReplaceBackslashRunsSplit(x[1..], false, c, y);
      }
    }
  }

  /** As written, a whitespace character between two parts of a name is
      deleted rather than turned into a hyphen. */
  lemma LiteralDropsWhitespace(a: string, c: char, b: string)
    requires IsJsWhitespace(c)
    ensures Literal(a + [c] + b) == Literal(a) + Literal(b)
  {
    var la, lb := LowerAscii(a), LowerAscii(b);
    var ra, rb := ReplaceBackslashRuns(la, false), ReplaceBackslashRuns(lb, false);
    calc {
      Literal(a + [c] + b);
    == { LowerAsciiAppend(a + [c], b);
         LowerAsciiAppend(a, [c]);
         assert LowerAscii([c]) == [c]; }
      KeepSlugChars(ReplaceBackslashRuns(la + [c] + lb, false));
    == { ReplaceBackslashRunsSplit(la, false, c, lb); }
      KeepSlugChars(ra + [c] + rb);
    == { KeepSlugCharsAppend(ra + [c], rb);
         KeepSlugCharsAppend(ra, [c]);
         assert [c][1..] == []; }
      KeepSlugChars(ra) + KeepSlugChars(rb);
    }
  }

  /** A non-empty whitespace prefix contributes one '-' (none when a run is
      already open) and closes the run before a non-whitespace character. */
  lemma {:induction false} CollapseBlankPrefix(ws: string, y: string, inRun: bool)
    requires ws != [] && IsBlank(ws)
    requires y == [] || !IsJsWhitespace(y[0])
    ensures CollapseWhitespace(ws + y, inRun)
         == (if inRun then [] else "-") + CollapseWhitespace(y, false)
    decreases |ws|
  {
    var s := ws + y;
    assert s[0] == ws[0];
    assert s[1..] == ws[1..] + y;
    if ws[1..] == [] {
      assert s[1..] == y;
    } else {
      CollapseBlankPrefix(ws[1..], y, true);
    }
  }

  /** One step of the intended replacement over `x + ws + y`, read off `x`. */
  lemma {:induction false} CollapseStep(x: string, ws: string, y: string, inRun: bool)
    requires x != []
    ensures CollapseWhitespace(x + ws + y, inRun)
         == (if IsJsWhitespace(x[0]) then (if inRun then [] else "-") else [x[0]])
            + CollapseWhitespace(x[1..] + ws + y, IsJsWhitespace(x[0]))
  {
    var s := x + ws + y;
    assert s[0] == x[0];
    assert s[1..] == x[1..] + ws + y;
  }

  /** Re-associates a four-part concatenation. */
  lemma Regroup(a: string, b: string, c: string, d: string)
    ensures a + (b + c + d) == a + b + c + d
  {
  }

  /** A whitespace run framed by non-whitespace becomes exactly one '-'. */
  lemma {:induction false} CollapseWhitespaceSplit(x: string, inRun: bool, ws: string, y: string)
    requires ws != [] && IsBlank(ws)
    requires x == [] ==> !inRun
    requires x != [] ==> !IsJsWhitespace(x[|x| - 1])
    requires y == [] || !IsJsWhitespace(y[0])
    ensures CollapseWhitespace(x + ws + y, inRun)
         == CollapseWhitespace(x, inRun) + "-" + CollapseWhitespace(y, false)
    decreases |x|
  {
    if x == [] {
      assert x + ws + y == ws + y;
      CollapseBlankPrefix(ws, y, false);
    } else {
      var w := IsJsWhitespace(x[0]);
      var head := if w then (if inRun then [] else "-") else [x[0]];
      CollapseStep(x, ws, y, inRun);
      assert w ==> x[1..] != [];
      assert x[1..] != [] ==> x[1..][|x[1..]| - 1] == x[|x| - 1];
      CollapseWhitespaceSplit(x[1..], w, ws, y);
      var A, B := CollapseWhitespace(x[1..], w), CollapseWhitespace(y, false);
      assert CollapseWhitespace(x, inRun) == head + A;
      Regroup(head, A, "-", B);
    }
  }

  /** Lower-casing neither creates nor removes whitespace. */
  lemma LowerCharKeepsWhitespace(c: char)
    ensures IsJsWhitespace(LowerChar(c)) == IsJsWhitespace(c)
  {
  }

  /** Lower-casing a blank string leaves it as it is. */
  lemma {:induction false} LowerAsciiBlank(ws: string)
    requires IsBlank(ws)
    ensures LowerAscii(ws) == ws
    decreases |ws|
  {
    if ws != [] {
      LowerAsciiBlank(ws[1..]);
    }
  }

  /** The intended rule: a whitespace run between two words becomes a hyphen. */
  lemma NormalizeHyphenatesWhitespace(a: string, ws: string, b: string)
    requires ws != [] && IsBlank(ws)
    requires a == [] || !IsJsWhitespace(a[|a| - 1])
    requires b == [] || !IsJsWhitespace(b[0])
    ensures Normalize(a + ws + b) == Normalize(a) + "-" + Normalize(b)
  {
    var la, lb := LowerAscii(a), LowerAscii(b);
    var ca, cb := CollapseWhitespace(la, false), CollapseWhitespace(lb, false);
    calc {
      Normalize(a + ws + b);
    == { LowerAsciiAppend(a + ws, b);
         LowerAsciiAppend(a, ws);
         LowerAsciiBlank(ws); }
      KeepSlugChars(CollapseWhitespace(la + ws + lb, false));
    == { if a != [] {
           LowerCharKeepsWhitespace(a[|a| - 1]);
         }
         if b != [] {
           LowerCharKeepsWhitespace(b[0]);
         }
         CollapseWhitespaceSplit(la, false, ws, lb); }
      KeepSlugChars(ca + "-" + cb);
    == { KeepSlugCharsAppend(ca + "-", cb);
         KeepSlugCharsAppend(ca, "-");
         assert "-"[1..] == []; }
      KeepSlugChars(ca) + "-" + KeepSlugChars(cb);
    }
  }

  /** As written, "a b" and "ab" receive the same routing key. */
  lemma LiteralMergesWords()
    ensures Literal("a b") == "ab" == Literal("ab")
  {
    assert "a b" == "a" + [' '] + "b";
    LiteralDropsWhitespace("a", ' ', "b");
    SlugIsFixed("a");
    SlugIsFixed("b");
    SlugIsFixed("ab");
  }

  /** The intended rule keeps "a b" and "ab" apart. */
  lemma NormalizeSeparatesWords()
    ensures Normalize("a b") == "a-b" != Normalize("ab")
  {
    assert "a b" == "a" + " " + "b";
    NormalizeHyphenatesWhitespace("a", " ", "b");
    SlugIsFixed("a");
    SlugIsFixed("b");
    SlugIsFixed("ab");
  }
  /** A non-whitespace character closes any run, so it splits the intended
      replacement into independent halves. */
  lemma {:induction false} CollapseWhitespaceSplitAt(x: string, inRun: bool, c: char, y: string)
    requires !IsJsWhitespace(c)
    ensures CollapseWhitespace(x + [c] + y, inRun)
         == CollapseWhitespace(x, inRun) + [c] + CollapseWhitespace(y, false)
    decreases |x|
  {
    if x == [] {
      assert x + [c] + y == [c] + y;
      assert ([c] + y)[1..] == y;
    } else {
      var w := IsJsWhitespace(x[0]);
      var head := if w then (if inRun then [] else "-") else [x[0]];
      CollapseStep(x, [c], y, inRun);
      CollapseWhitespaceSplitAt(x[1..], w, c, y);
      Regroup(head, CollapseWhitespace(x[1..], w), [c], CollapseWhitespace(y, false));
    }
  }

  /** Lower-casing `a + [c] + b` works piece by piece. */
  lemma LowerAsciiAround(a: string, c: char, b: string)
    ensures LowerAscii(a + [c] + b) == LowerAscii(a) + [LowerChar(c)] + LowerAscii(b)
  {
    LowerAsciiAppend(a + [c], b);
    LowerAsciiAppend(a, [c]);
  }

  /** Under the intended rule, a character that is neither whitespace nor a
      slug character once lower-cased (punctuation, '_', non-ASCII letters)
      is stripped and joins nothing. */
  lemma NormalizeStripsNonSlug(a: string, c: char, b: string)
    requires !IsJsWhitespace(c) && !IsSlugChar(LowerChar(c))
    ensures Normalize(a + [c] + b) == Normalize(a) + Normalize(b)
  {
    var la, lb := LowerAscii(a), LowerAscii(b);
    LowerAsciiAround(a, c, b);
    LowerCharKeepsWhitespace(c);
    CollapseWhitespaceSplitAt(la, false, LowerChar(c), lb);
    KeepSlugCharsDrops(CollapseWhitespace(la, false), LowerChar(c), CollapseWhitespace(lb, false));
  }

  /** As written, such a character (other than a backslash) is stripped too. */
  lemma LiteralStripsNonSlug(a: string, c: char, b: string)
    requires c != '\\' && !IsSlugChar(LowerChar(c))
    ensures Literal(a + [c] + b) == Literal(a) + Literal(b)
  {
    var la, lb := LowerAscii(a), LowerAscii(b);
    LowerAsciiAround(a, c, b);
    ReplaceBackslashRunsSplit(la, false, LowerChar(c), lb);
    KeepSlugCharsDrops(ReplaceBackslashRuns(la, false), LowerChar(c), ReplaceBackslashRuns(lb, false));
  }

  /** A word of ASCII letters and digits, and its lower-case form. */
  predicate LowersTo(w: string, lw: string) {
    w != [] && LowerAscii(w) == lw && IsSlug(lw) && lw != [] && lw[0] != '-' && lw[|lw| - 1] != '-'
  }

  /** A word lower-cases to a slug without hyphens at its ends, so its first
      and last characters are not whitespace. */
  lemma LowersToEnds(w: string, lw: string)
    requires LowersTo(w, lw)
    ensures !IsJsWhitespace(w[0]) && !IsJsWhitespace(w[|w| - 1])
    ensures Normalize(w) == lw == Literal(w)
  {
    LowerCharKeepsWhitespace(w[0]);
    LowerCharKeepsWhitespace(w[|w| - 1]);
    SlugIsFixed(lw);
  }

  /** A word followed by a mark that is neither whitespace nor a slug
      character (such as '!'): both rules give the word's lower-case form. */
  lemma MarkedWord(w: string, c: char, lw: string)
    requires LowersTo(w, lw)
    requires !IsJsWhitespace(c) && c != '\\' && !IsSlugChar(LowerChar(c))
    ensures !IsJsWhitespace((w + [c])[0])
    ensures Normalize(w + [c]) == lw == Literal(w + [c])
  {
    LowersToEnds(w, lw);
    assert w + [c] == w + [c] + [];
    NormalizeStripsNonSlug(w, c, []);
    LiteralStripsNonSlug(w, c, []);
    SlugIsFixed([]);
  }

  /** A word, one space, then the rest of a name: the intended rule puts a
      '-' between their slugs, the literal rule runs them together. */
  lemma JoinWord(w: string, lw: string, rest: string, nr: string, lr: string)
    requires LowersTo(w, lw)
    requires rest != [] && !IsJsWhitespace(rest[0])
    requires Normalize(rest) == nr && Literal(rest) == lr
    ensures !IsJsWhitespace((w + " " + rest)[0])
    ensures Normalize(w + " " + rest) == lw + "-" + nr
    ensures Literal(w + " " + rest) == lw + lr
  {
    LowersToEnds(w, lw);
    NormalizeHyphenatesWhitespace(w, " ", rest);
    assert w + " " + rest == w + [' '] + rest;
    LiteralDropsWhitespace(w, ' ', rest);
  }

  /** Three words separated by single spaces and followed by such a mark:
      the intended rule joins the lower-cased words with '-', the literal
      rule runs them together, and both drop the mark. */
  lemma ThreeWords(w1: string, w2: string, w3: string, c: char, l1: string, l2: string, l3: string)
    requires LowersTo(w1, l1) && LowersTo(w2, l2) && LowersTo(w3, l3)
    requires !IsJsWhitespace(c) && c != '\\' && !IsSlugChar(LowerChar(c))
    ensures Normalize(w1 + " " + w2 + " " + w3 + [c]) == l1 + "-" + l2 + "-" + l3
    ensures Literal(w1 + " " + w2 + " " + w3 + [c]) == l1 + l2 + l3
  {
    MarkedWord(w3, c, l3);
    JoinWord(w2, l2, w3 + [c], l3, l3);
    JoinWord(w1, l1, w2 + " " + (w3 + [c]), l2 + "-" + l3, l2 + l3);
    assert w1 + " " + (w2 + " " + (w3 + [c])) == w1 + " " + w2 + " " + w3 + [c];
  }

  /** The three words of "My Cool API!". */
  lemma MyCoolApiWords()
    ensures LowersTo("My", "my") && LowersTo("Cool", "cool") && LowersTo("API", "api")
  {
    assert LowerAscii("My") == "my";
    assert LowerAscii("Cool") == "cool";
    assert LowerAscii("API") == "api";
  }

  /** "My Cool API!": the intended rule gives "my-cool-api"; as written the
      route gives "mycoolapi". */
  lemma MyCoolApiExample()
    ensures Normalize("My Cool API!") == "my-cool-api"
    ensures Literal("My Cool API!") == "mycoolapi"
  {
    assert "My" + " " + "Cool" + " " + "API" + ['!'] == "My Cool API!";
    assert "my" + "-" + "cool" + "-" + "api" == "my-cool-api";
    assert "my" + "cool" + "api" == "mycoolapi";
    MyCoolApiWords();
    ThreeWords("My", "Cool", "API", '!', "my", "cool", "api");
  }
}
