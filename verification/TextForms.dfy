/** The scan views on texts as they are written: which characters go or change, and what becomes of a
    comment. */
module TextForms {
  import opened Wrappers
  import opened Strings
  import opened TextViews

  // ----- Characters -----

  /** Removing invisible characters keeps the others, in order. */
  lemma {:induction false} InvisibleJoin(a: string, b: string)
    ensures WithoutInvisible(a + b) == WithoutInvisible(a) + WithoutInvisible(b)
  {
    if b == "" {
      assert a + b == a;
    } else {
      var front := b[..|b| - 1];
      assert (a + b)[..|a + b| - 1] == a + front;
      InvisibleJoin(a, front);
    }
  }

  lemma InvisibleOne(c: char)
    ensures WithoutInvisible([c]) == if IsInvisible(c) then "" else [c]
  {
    assert [c][..0] == "";
  }

  /** The full-width form of an ASCII character is folded to that character; outside the full-width forms
      only curated lookalikes change, and those become letters. */
  lemma FullWidth(c: char, ascii: char)
    requires '!' <= ascii <= '~'
    ensures FoldChar((ascii as int + 0xFEE0) as char) == ascii
    ensures !(0xFF01 <= c as int <= 0xFF5E) ==> FoldChar(c) == GetOr(Confusable(c as int), c)
  {
  }

  /** The whitespace that is collapsed. */
  lemma CollapsedSpaces(c: char)
    ensures IsSpace(c) <==> c as int in {
      0x9, 0xA, 0xB, 0xC, 0xD, 0x20, 0x85, 0xA0, 0x1680,
      0x2000, 0x2001, 0x2002, 0x2003, 0x2004, 0x2005, 0x2006, 0x2007, 0x2008, 0x2009, 0x200A,
      0x2028, 0x2029, 0x202F, 0x205F, 0x3000}
  {
  }

  // ----- Comments -----

  lemma {:induction false} FindTextExact(s: string, sub: string, i: nat, j: nat)
    requires i <= j && OccursAt(s, sub, j) && forall k :: i <= k < j ==> !OccursAt(s, sub, k)
    ensures FindText(s, sub, i) == j
    decreases j - i
  {
    if i < j {
      FindTextExact(s, sub, i + 1, j);
    }
  }

  lemma {:induction false} FindTextNothing(s: string, sub: string, i: nat)
    requires i <= |s| && forall k :: i <= k <= |s| ==> !OccursAt(s, sub, k)
    ensures FindText(s, sub, i) == -1
    decreases |s| - i
  {
    if i < |s| {
      FindTextNothing(s, sub, i + 1);
    }
  }

  /** An opener is found behind a text that holds none. */
  lemma OpenerFound(before: string, rest: string)
    requires !Contains(before, "<!--")
    ensures FindText(before + "<!--" + rest, "<!--", 0) == |before|
  {
    var s := before + "<!--" + rest;
    var n := |before|;
    assert s[n..n + 4] == "<!--";
    forall k | 0 <= k < n ensures !OccursAt(s, "<!--", k) {
      if k + 4 <= n {
        assert s[k..k + 4] == before[k..k + 4];
        assert !OccursAt(before, "<!--", k);
      } else {
        assert s[k..k + 4][n - k] == '<' && "<!--"[n - k] != '<';
      }
    }
    FindTextExact(s, "<!--", 0, n);
  }

  lemma CloserFound(inner: string, rest: string)
    requires !Contains(inner, "-->")
    ensures FindText(inner + "-->" + rest, "-->", 0) == |inner|
  {
    var s := inner + "-->" + rest;
    var n := |inner|;
    assert s[n..n + 3] == "-->";
    forall k | 0 <= k < n ensures !OccursAt(s, "-->", k) {
      if k + 3 <= n {
        assert s[k..k + 3] == inner[k..k + 3];
        assert !OccursAt(inner, "-->", k);
      } else {
        assert s[k..k + 3][2] == s[k + 2] == '-';
      }
    }
    FindTextExact(s, "-->", 0, n);
  }

  lemma NotFound(s: string, sub: string)
    requires !Contains(s, sub)
    ensures FindText(s, sub, 0) == -1
  {
    FindTextNothing(s, sub, 0);
  }

  /** A comment as it is written becomes one space, and stripping goes on behind it; one that is never
      closed becomes a space and ends the text; without an opener nothing changes. */
  lemma CommentsAsWritten(before: string, inner: string, rest: string)
    requires !Contains(before, "<!--") && !Contains(inner, "-->")
    ensures WithoutComments(before + "<!--" + inner + "-->" + rest) == before + " " + WithoutComments(rest)
    ensures WithoutComments(before + "<!--" + inner) == before + " "
    ensures WithoutComments(before) == before
  {
    hide Contains, FindText, WithoutComments;
    ClosedComment(before, inner, rest);
    OpenComment(before, inner);
    NotFound(before, "<!--");
    CommentsStep(before);
  }

  lemma OpenComment(before: string, inner: string)
    requires !Contains(before, "<!--") && !Contains(inner, "-->")
    ensures WithoutComments(before + "<!--" + inner) == before + " "
  {
    hide Contains, FindText, WithoutComments;
    var text := before + "<!--" + inner;
    OpenerFound(before, inner);
    NotFound(inner, "-->");
    CommentsStep(text);
    assert text[|before| + 4..] == inner && text[..|before|] == before && before + " " + "" == before + " ";
  }

  lemma ClosedComment(before: string, inner: string, rest: string)
    requires !Contains(before, "<!--") && !Contains(inner, "-->")
    ensures WithoutComments(before + "<!--" + inner + "-->" + rest) == before + " " + WithoutComments(rest)
  {
    var after := inner + "-->" + rest;
    var text := before + "<!--" + after;
    OpenerFound(before, after);
    CloserFound(inner, rest);
    CommentsStep(text);
    hide *;
    CommentParts(before, inner, rest);
  }

  lemma CommentParts(before: string, inner: string, rest: string)
    ensures var after := inner + "-->" + rest;
      var text := before + "<!--" + after;
      && text[|before| + 4..] == after && text[..|before|] == before
      && after[|inner| + 3..] == rest
      && before + "<!--" + inner + "-->" + rest == text
  {
    var after := inner + "-->" + rest;
    assert before + "<!--" + inner + "-->" + rest == before + "<!--" + after;
  }
}
