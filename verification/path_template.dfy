/** The route-template rewrite done when an operation is registered
    (`fiberAdapter.Handle` in humafiber.go): the API framework writes path
    parameters as `{name}`, the engine as `:name`. The adapter calls Go's
    `strings.ReplaceAll` twice, first turning every `{` into `:` and then
    deleting every `}`.

    Characters are Unicode scalars here while Go strings are UTF-8 bytes. Both
    patterns are ASCII and no byte of a multi-byte UTF-8 sequence is ASCII, so the
    rewrite treats every other character the same way in both views. */
module PathTemplate {

  /** Number of occurrences of `c` in `s`. */
  function Count(s: string, c: char): nat
  {
    if |s| == 0 then 0 else (if s[0] == c then 1 else 0) + Count(s[1..], c)
  }

  /** Go's `strings.ReplaceAll(s, pattern, repl)`: every non-overlapping occurrence of
      `pattern`, scanning left to right, is replaced by `repl`. An empty `pattern` matches
      at the start and after every character. Go returns `s` itself when the two
      arguments are equal; the general rule gives the same string. */
  function ReplaceAll(s: string, pattern: string, repl: string): (r: string)
    ensures |pattern| == 1 ==> r == SubstChar(s, pattern[0], repl)
    ensures repl == pattern ==> r == s
  {
    if |pattern| == 0 then
      InsertAroundEmpty(s);
      InsertAround(s, repl)
    else
      ReplaceNonEmptySame(s, pattern);
      ReplaceNonEmptySingleChar(s, pattern[0], repl);
      assert |pattern| == 1 ==> pattern == [pattern[0]];
      ReplaceNonEmpty(s, pattern, repl)
  }

  /** `repl` before, between and after the characters of `s`. */
  function InsertAround(s: string, repl: string): string
  {
    if |s| == 0 then repl else repl + [s[0]] + InsertAround(s[1..], repl)
  }

  /** Leftmost non-overlapping replacement of a non-empty pattern. */
  function ReplaceNonEmpty(s: string, pattern: string, repl: string): string
    requires |pattern| > 0
    decreases |s|
  {
    if |pattern| <= |s| && s[..|pattern|] == pattern then repl + ReplaceNonEmpty(s[|pattern|..], pattern, repl)
    else if |s| == 0 then []
    else [s[0]] + ReplaceNonEmpty(s[1..], pattern, repl)
  }

  /** Substitution of `t` for every occurrence of the single character `c`. */
  function SubstChar(s: string, c: char, t: string): string
  {
    if |s| == 0 then "" else (if s[0] == c then t else [s[0]]) + SubstChar(s[1..], c, t)
  }

  lemma {:induction false} InsertAroundEmpty(s: string)
    ensures InsertAround(s, "") == s
    decreases |s|
  {
    if |s| > 0 {
      InsertAroundEmpty(s[1..]);
    }
  }

  lemma {:induction false} ReplaceNonEmptySame(s: string, pattern: string)
    requires |pattern| > 0
    ensures ReplaceNonEmpty(s, pattern, pattern) == s
    decreases |s|
  {
    if |pattern| <= |s| && s[..|pattern|] == pattern {
      ReplaceNonEmptySame(s[|pattern|..], pattern);
      assert s == s[..|pattern|] + s[|pattern|..];
    } else if |s| > 0 {
      ReplaceNonEmptySame(s[1..], pattern);
    }
  }

  /** With a one-character pattern, the replacement is character-wise substitution. */
  lemma {:induction false} ReplaceNonEmptySingleChar(s: string, c: char, t: string)
    ensures ReplaceNonEmpty(s, [c], t) == SubstChar(s, c, t)
    decreases |s|
  {
    if |s| > 0 {
      ReplaceNonEmptySingleChar(s[1..], c, t);
      if s[..1] == [c] {
        assert s[1..] == s[|[c]|..];
      } else {
        assert s[0] != c;
      }
    }
  }

  /** The template the engine is given for the framework's template `path`: no
      brace survives, and the output is shorter than the input by exactly the
      number of `}`. */
  function RewritePath(path: string): (r: string)
    ensures '{' !in r && '}' !in r
    ensures |r| == |path| - Count(path, '}')
  {
    SubstThenDrop(path);
    TranslateNoBraces(path);
    TranslateLength(path);
    ReplaceAll(ReplaceAll(path, "{", ":"), "}", "")
  }

  /** Reference definition, one character at a time: `{` becomes `:`, `}`
      disappears, anything else is kept. */
  function RewriteChar(c: char): string
  {
    if c == '{' then ":" else if c == '}' then "" else [c]
  }

  function Translate(path: string): string
  {
    if |path| == 0 then "" else RewriteChar(path[0]) + Translate(path[1..])
  }

  lemma {:induction false} SubstCharConcat(a: string, b: string, c: char, t: string)
    ensures SubstChar(a + b, c, t) == SubstChar(a, c, t) + SubstChar(b, c, t)
    decreases |a|
  {
    if |a| == 0 {
      assert a + b == b;
    } else {
      assert (a + b)[1..] == a[1..] + b;
      SubstCharConcat(a[1..], b, c, t);
    }
  }

  /** The two `ReplaceAll` calls together translate every character on its own. */
  lemma RewriteIsPerCharacter(path: string)
    ensures RewritePath(path) == Translate(path)
  {
    SubstThenDrop(path);
  }

  lemma {:induction false} SubstThenDrop(path: string)
    ensures SubstChar(SubstChar(path, '{', ":"), '}', "") == Translate(path)
    decreases |path|
  {
    if |path| > 0 {
      var head := if path[0] == '{' then ":" else [path[0]];
      assert SubstChar(path, '{', ":") == head + SubstChar(path[1..], '{', ":");
      SubstCharConcat(head, SubstChar(path[1..], '{', ":"), '}', "");
      SubstThenDrop(path[1..]);
      assert SubstChar(head, '}', "") == RewriteChar(path[0]) by {
        assert head[1..] == "";
      }
    }
  }

  lemma {:induction false} TranslateConcat(a: string, b: string)
    ensures Translate(a + b) == Translate(a) + Translate(b)
    decreases |a|
  {
    if |a| == 0 {
      assert a + b == b;
    } else {
      assert (a + b)[1..] == a[1..] + b;
      TranslateConcat(a[1..], b);
    }
  }

  lemma {:induction false} TranslateLength(path: string)
    ensures |Translate(path)| == |path| - Count(path, '}')
    decreases |path|
  {
    if |path| > 0 {
      TranslateLength(path[1..]);
    }
  }

  lemma {:induction false} TranslateNoBraces(path: string)
    ensures '{' !in Translate(path) && '}' !in Translate(path)
    decreases |path|
  {
    if |path| > 0 {
      TranslateNoBraces(path[1..]);
    }
  }

  lemma {:induction false} TranslateFixesBraceFree(path: string)
    requires '{' !in path && '}' !in path
    ensures Translate(path) == path
    decreases |path|
  {
    if |path| > 0 {
      assert path[0] in path;
      assert forall k :: 0 <= k < |path[1..]| ==> path[1..][k] == path[k + 1];
      TranslateFixesBraceFree(path[1..]);
    }
  }

  /** Rewriting a template piece by piece gives the rewrite of the whole template:
      no match of either pattern spans a cut. */
  lemma RewriteConcat(a: string, b: string)
    ensures RewritePath(a + b) == RewritePath(a) + RewritePath(b)
  {
    RewriteIsPerCharacter(a + b);
    RewriteIsPerCharacter(a);
    RewriteIsPerCharacter(b);
    TranslateConcat(a, b);
  }

  /** Character `i` of `path` sits in `out` at its own index less the number of
      `}` before it; a `{` sits there as `:`, anything else unchanged. */
  predicate KeptInPlace(path: string, out: string, i: int)
    requires 0 <= i < |path|
  {
    && 0 <= i - Count(path[..i], '}') < |out|
    && out[i - Count(path[..i], '}')] == (if path[i] == '{' then ':' else path[i])
  }

  /** Every character other than `}` is kept in place, in order. */
  lemma RewriteKeepsOrder(path: string, i: int)
    requires 0 <= i < |path| && path[i] != '}'
    ensures KeptInPlace(path, RewritePath(path), i)
  {
    RewriteIsPerCharacter(path);
    assert path == path[..i] + path[i..];
    TranslateConcat(path[..i], path[i..]);
    TranslateLength(path[..i]);
    assert Translate(path[i..]) == RewriteChar(path[i]) + Translate(path[i + 1..]) by {
      assert path[i..][1..] == path[i + 1..];
    }
  }

  /** `RewriteKeepsOrder` for every index at once. */
  lemma RewriteKeepsOrderEverywhere(path: string)
    ensures forall i :: 0 <= i < |path| && path[i] != '}' ==> KeptInPlace(path, RewritePath(path), i)
  {
    forall i | 0 <= i < |path| && path[i] != '}'
      ensures KeptInPlace(path, RewritePath(path), i)
    {
      RewriteKeepsOrder(path, i);
    }
  }

  /** A template already in the engine's syntax, without braces, passes unchanged. */
  lemma RewriteFixesBraceFree(path: string)
    requires '{' !in path && '}' !in path
    ensures RewritePath(path) == path
  {
    RewriteIsPerCharacter(path);
    TranslateFixesBraceFree(path);
  }

  /** Rewriting a rewritten template changes nothing. */
  lemma RewriteIdempotent(path: string)
    ensures RewritePath(RewritePath(path)) == RewritePath(path)
  {
    RewriteFixesBraceFree(RewritePath(path));
  }

  /** A brace-free segment followed by a parameter `{name}` becomes the segment
      followed by `:name`. */
  lemma RewriteParameter(segment: string, name: string)
    requires '{' !in segment && '}' !in segment
    requires '{' !in name && '}' !in name
    ensures RewritePath(segment + "{" + name + "}") == segment + ":" + name
  {
    RewriteIsPerCharacter(segment + "{" + name + "}");
    TranslateConcat(segment + "{" + name, "}");
    TranslateConcat(segment + "{", name);
    TranslateConcat(segment, "{");
    TranslateFixesBraceFree(segment);
    TranslateFixesBraceFree(name);
    assert Translate("{") == ":";
    assert Translate("}") == "";
  }

  // The concrete examples below take the template as a parameter pinned by
  // `requires` to one literal. Written with the literal inside the `ensures`,
  // the verifier unfolds `ReplaceAll` on the literal character by character and
  // runs out of resources; the general lemmas above carry the proof instead.

  /** A single parameter: the shape the framework uses for item routes. */
  lemma RewriteSingleParameter(path: string)
    requires path == "/items/{id}"
    ensures RewritePath(path) == "/items/:id"
  {
    RewriteParameter("/items/", "id");
    assert path == "/items/" + "{" + "id" + "}";
  }

  /** Two parameters in one template, rewritten segment by segment. */
  lemma RewriteTwoParameters(path: string)
    requires path == "/users/{id}/posts/{post}"
    ensures RewritePath(path) == "/users/:id/posts/:post"
  {
    var a, x, b, y := UsersPostsPieces(path);
    TwoSegments(a, x, b, y);
  }

  /** The pieces of the two-parameter example. The literal arithmetic lives in a
      lemma of its own because, next to `RewritePath`, it made the verifier run
      out of resources. */
  lemma UsersPostsPieces(path: string) returns (a: string, x: string, b: string, y: string)
    requires path == "/users/{id}/posts/{post}"
    ensures '{' !in a && '}' !in a && '{' !in x && '}' !in x
    ensures '{' !in b && '}' !in b && '{' !in y && '}' !in y
    ensures path == (a + "{" + x + "}") + (b + "{" + y + "}")
    ensures (a + ":" + x) + (b + ":" + y) == "/users/:id/posts/:post"
  {
    a, x, b, y := "/users/", "id", "/posts/", "post";
  }

  lemma TwoSegments(a: string, x: string, b: string, y: string)
    requires '{' !in a && '}' !in a && '{' !in x && '}' !in x
    requires '{' !in b && '}' !in b && '{' !in y && '}' !in y
    ensures RewritePath((a + "{" + x + "}") + (b + "{" + y + "}")) == (a + ":" + x) + (b + ":" + y)
  {
    RewriteConcat(a + "{" + x + "}", b + "{" + y + "}");
    RewriteParameter(a, x);
    RewriteParameter(b, y);
  }

  /** The rewrite does not check parameter names: after any brace-free segment an
      empty `{}` becomes a bare `:`, a parameter without a name. */
  lemma RewriteEmptyParameter(segment: string)
    requires '{' !in segment && '}' !in segment
    ensures RewritePath(segment + "{}") == segment + ":"
  {
    RewriteParameter(segment, "");
    assert segment + "{" + "" + "}" == segment + "{}";
    assert segment + ":" + "" == segment + ":";
  }
}
