/**
 * `strip_html`: `re.sub('<.*?>', '', html)`. A match starts at a `<` and
 * ends at the first `>` after it, provided no newline comes first (`.` does
 * not match a newline); the search then resumes after the match. A `<` with
 * no such `>` is kept, and the search moves on by one character.
 */
module Markup {
  import opened Common

  /**
   * Where the shortest `.*?>` starting at `t[0]` ends: the index of the first
   * `>` in `t`, if no newline precedes it.
   */
  function TagEnd(t: string): (r: Option<nat>)
    ensures r.Some? ==> r.value < |t|
  {
    if t == [] || t[0] == '\n' then None
    else if t[0] == '>' then Some(0)
    else
      match TagEnd(t[1..])
      case Some(j) => Some(j + 1)
      case None => None
  }

  /**
   * `TagEnd` finds the leftmost-shortest match: a `>` with no newline or `>`
   * before it; and when it finds none, every `>` in `t` has a newline before it.
   */
  lemma {:induction false} TagEndIsShortestMatch(t: string)
    ensures TagEnd(t).Some? ==>
              t[TagEnd(t).value] == '>' && forall k :: 0 <= k < TagEnd(t).value ==> t[k] != '\n' && t[k] != '>'
    ensures TagEnd(t).None? ==>
              forall j :: 0 <= j < |t| && t[j] == '>' ==> exists k :: 0 <= k < j && t[k] == '\n'
  {
    if t != [] && t[0] != '\n' && t[0] != '>' {
      TagEndIsShortestMatch(t[1..]);
      if TagEnd(t).None? {
        forall j | 0 <= j < |t| && t[j] == '>' ensures exists k :: 0 <= k < j && t[k] == '\n' {
          assert t[1..][j - 1] == t[j];
          var k :| 0 <= k < j - 1 && t[1..][k] == '\n';
          assert t[k + 1] == '\n';
        }
      }
    }
  }

  /** `strip_html(s)`. */
  function StripHtml(s: string): string
  {
    if s == [] then []
    else if s[0] == '<' && TagEnd(s[1..]).Some? then StripHtml(s[TagEnd(s[1..]).value + 2..])
    else [s[0]] + StripHtml(s[1..])
  }

  /** `s` contains nothing the pattern `<.*?>` matches. */
  predicate NoTag(s: string)
  {
    forall i :: 0 <= i < |s| && s[i] == '<' ==> TagEnd(s[i + 1..]).None?
  }

  lemma NoTagTail(s: string)
    requires s != [] && NoTag(s)
    ensures NoTag(s[1..])
  {
  }

  lemma NoTagCons(c: char, s: string)
    requires NoTag(s) && (c == '<' ==> TagEnd(s).None?)
    ensures NoTag([c] + s)
  {
    var t := [c] + s;
    forall i | 0 <= i < |t| && t[i] == '<' ensures TagEnd(t[i + 1..]).None? {
      if i == 0 {
        assert t[1..] == s;
      } else {
        assert t[i + 1..] == s[i..];
      }
    }
  }

  /** Text without tags comes through unchanged. */
  lemma {:induction false} StripHtmlNoTag(s: string)
    requires NoTag(s)
    ensures StripHtml(s) == s
  {
    if s != [] {
      NoTagTail(s);
      StripHtmlNoTag(s[1..]);
      assert s == [s[0]] + s[1..];
    }
  }

  /** A `>` before the first newline of `t` is still there after stripping. */
  lemma {:induction false} StripKeepsNoTagEnd(t: string)
    requires TagEnd(t).None?
    ensures TagEnd(StripHtml(t)).None?
  {
    if t != [] && t[0] != '\n' {
      assert t[0] != '>';
      assert TagEnd(t[1..]).None?;
      if t[0] == '<' {
        assert TagEnd(t[1..]).None?;
      }
      StripKeepsNoTagEnd(t[1..]);
      assert StripHtml(t) == [t[0]] + StripHtml(t[1..]);
      assert ([t[0]] + StripHtml(t[1..]))[1..] == StripHtml(t[1..]);
    } else if t != [] {
      StripHtmlStartsLike(t);
    }
  }

  /** A newline is never removed, so a text that starts with one still does after stripping. */
  lemma StripHtmlStartsLike(t: string)
    requires t != [] && t[0] == '\n'
    ensures StripHtml(t) != [] && StripHtml(t)[0] == '\n'
  {
  }

  /** What `strip_html` returns contains no tag any more. */
  lemma {:induction false} StripHtmlLeavesNoTag(s: string)
    ensures NoTag(StripHtml(s))
  {
    if s == [] {
    } else if s[0] == '<' && TagEnd(s[1..]).Some? {
      StripHtmlLeavesNoTag(s[TagEnd(s[1..]).value + 2..]);
    } else {
      StripHtmlLeavesNoTag(s[1..]);
      if s[0] == '<' {
        StripKeepsNoTagEnd(s[1..]);
      }
      NoTagCons(s[0], StripHtml(s[1..]));
    }
  }

  /** Stripping twice is stripping once. */
  lemma StripHtmlIdempotent(s: string)
    ensures StripHtml(StripHtml(s)) == StripHtml(s)
  {
    StripHtmlLeavesNoTag(s);
    StripHtmlNoTag(StripHtml(s));
  }

  /** Stripping only removes characters: the result is never longer. */
  lemma {:induction false} StripHtmlShrinks(s: string)
    ensures |StripHtml(s)| <= |s|
  {
    if s != [] {
      if s[0] == '<' && TagEnd(s[1..]).Some? {
        StripHtmlShrinks(s[TagEnd(s[1..]).value + 2..]);
      } else {
        StripHtmlShrinks(s[1..]);
      }
    }
  }

  /** Text before the first `<` is copied as it is. */
  lemma {:induction false} StripHtmlPlainPrefix(a: string, b: string)
    requires '<' !in a
    ensures StripHtml(a + b) == a + StripHtml(b)
  {
    if a != [] {
      StripHtmlPlainPrefix(a[1..], b);
      var s := a + b;
      assert s[0] == a[0] && a[0] != '<';
      assert s[1..] == a[1..] + b;
      calc {
        StripHtml(s);
        [s[0]] + StripHtml(s[1..]);
        [a[0]] + (a[1..] + StripHtml(b));
        { assert a == [a[0]] + a[1..]; }
        a + StripHtml(b);
      }
    } else {
      assert a + b == b;
    }
  }

  /** A leading `<x>`, with no `>` or newline inside `x`, is removed as one match. */
  lemma StripHtmlTagPrefix(x: string, rest: string)
    requires '>' !in x && '\n' !in x
    ensures StripHtml("<" + x + ">" + rest) == StripHtml(rest)
  {
    var s := "<" + x + ">" + rest;
    assert s[1..] == x + ">" + rest;
    TagEndAfter(x, rest);
    assert s[|x| + 2..] == rest;
  }

  /**
   * A leading `<` whose every later `>` has a newline before it matches
   * nothing: it is kept, and stripping goes on with the next character, so
   * a tag further on is still removed.
   */
  lemma StripHtmlBrokenTagPrefix(rest: string)
    requires forall j :: 0 <= j < |rest| && rest[j] == '>' ==> exists k :: 0 <= k < j && rest[k] == '\n'
    ensures StripHtml("<" + rest) == "<" + StripHtml(rest)
  {
    TagEndIsShortestMatch(rest);
    assert TagEnd(rest).None?;
    assert ("<" + rest)[1..] == rest;
  }

  lemma {:induction false} TagEndAfter(x: string, rest: string)
    requires '>' !in x && '\n' !in x
    ensures TagEnd(x + ">" + rest) == Some(|x|)
  {
    if x != [] {
      TagEndAfter(x[1..], rest);
      assert (x + ">" + rest)[1..] == x[1..] + ">" + rest;
    }
  }

  /** `<p>text<b>more</b></p>` loses its four tags and keeps its text. */
  lemma StripHtmlNested(p: string, text: string, b: string, more: string)
    requires '>' !in p && '\n' !in p && '>' !in b && '\n' !in b
    requires '<' !in text && '<' !in more
    ensures StripHtml("<" + p + ">" + (text + ("<" + b + ">" + (more + ("<" + ("/" + b) + ">" + ("<" + ("/" + p) + ">" + "")))))) == text + more
  {
    var closeP := "<" + ("/" + p) + ">" + "";
    var closeB := "<" + ("/" + b) + ">" + closeP;
    var tail := more + closeB;
    var bold := "<" + b + ">" + tail;
    StripHtmlTagPrefix("/" + p, "");
    StripHtmlTagPrefix("/" + b, closeP);
    StripHtmlPlainPrefix(more, closeB);
    StripHtmlTagPrefix(b, tail);
    StripHtmlPlainPrefix(text, bold);
    StripHtmlTagPrefix(p, text + bold);
    assert more + "" == more;
  }

  /** The documented example: `<p>Hello <b>World</b></p>` becomes `Hello World`. */
  lemma StripHtmlExample(s: string)
    requires s == "<p>Hello <b>World</b></p>"
    ensures StripHtml(s) == "Hello World"
  {
    ExampleStripped(s);
    assert "Hello " + "World" == "Hello World";
  }

  lemma ExampleStripped(s: string)
    requires s == "<p>Hello <b>World</b></p>"
    ensures StripHtml(s) == "Hello " + "World"
  {
    StripHtmlNested("p", "Hello ", "b", "World");
    ExampleSpelledOut();
  }

  lemma ExampleSpelledOut()
    ensures "<" + "p" + ">" + ("Hello " + ("<" + "b" + ">" + ("World" + ("<" + ("/" + "b") + ">" + ("<" + ("/" + "p") + ">" + "")))))
            == "<p>Hello <b>World</b></p>"
  {
  }

  /** A `<` whose `>` only comes after a newline is not a tag: nothing is removed. */
  lemma StripHtmlKeepsBrokenTag()
    ensures StripHtml("a < b\n> c") == "a < b\n> c"
  {
    var w := "a < b\n> c";
    assert w[3..] == " b\n> c";
    assert TagEnd("\n> c") == None;
    assert TagEnd("b\n> c") == None;
    assert TagEnd(w[3..]) == None;
    assert NoTag(w) by {
      forall i | 0 <= i < |w| && w[i] == '<' ensures TagEnd(w[i + 1..]).None? {
        assert i == 2;
      }
    }
    StripHtmlNoTag(w);
  }
}
