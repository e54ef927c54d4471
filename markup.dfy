/**
 * The global replace of the pattern `<[^>]*>` by the empty string that the
 * tutorial pages use to drop HTML tags: from a '<' that has a '>' somewhere
 * after it, everything up to and including the first such '>' goes.
 */
module Markup {
  import opened Wrappers
  import opened Text

  /** No '<' has a '>' after it, so the tag pattern has no match. */
  predicate TagFree(s: string) {
    forall i, j :: 0 <= i < j < |s| && s[i] == '<' ==> s[j] != '>'
  }

  /** `s.replace(/<[^>]*>/g, '')`. A '<' without a later '>' starts no match,
      and then no later '<' does either, so the rest is kept as it is. */
  function StripTags(s: string): (r: string)
    ensures |r| <= |s|
    ensures forall c :: c in r ==> c in s
    decreases |s|
  {
    if s == [] then []
    else if s[0] == '<' then
      match IndexOfChar(s[1..], '>')
      case Some(j) => (assert forall c :: c in s[j + 2..] ==> c in s; StripTags(s[j + 2..]))
      case None => s
    else
      (assert forall c :: c in s[1..] ==> c in s; [s[0]] + StripTags(s[1..]))
  }

  /** No tag is left once the tags are stripped. */
  lemma {:induction false} StripTagsTagFree(s: string)
    ensures TagFree(StripTags(s))
    decreases |s|
  {
    if s != [] {
      if s[0] == '<' {
        match IndexOfChar(s[1..], '>')
        case Some(j) => StripTagsTagFree(s[j + 2..]);
        case None =>
          forall i, j | 0 <= i < j < |s| && s[i] == '<' ensures s[j] != '>' {
            assert s[j] == s[1..][j - 1];
          }
      } else {
        StripTagsTagFree(s[1..]);
        var r := StripTags(s[1..]);
        forall i, j | 0 <= i < j < |r| + 1 && ([s[0]] + r)[i] == '<' ensures ([s[0]] + r)[j] != '>' {
          assert i >= 1;
          assert ([s[0]] + r)[i] == r[i - 1] && ([s[0]] + r)[j] == r[j - 1];
        }
      }
    }
  }

  lemma TagFreeTail(s: string)
    requires s != [] && TagFree(s)
    ensures TagFree(s[1..])
  {
    forall i, j | 0 <= i < j < |s| - 1 && s[1..][i] == '<' ensures s[1..][j] != '>' {
      assert s[1..][i] == s[i + 1] && s[1..][j] == s[j + 1];
    }
  }

  /** Text without a tag comes back unchanged. */
  lemma {:induction false} StripTagsOfTagFree(s: string)
    requires TagFree(s)
    ensures StripTags(s) == s
    decreases |s|
  {
    if s != [] {
      if s[0] == '<' {
        assert '>' !in s[1..] by {
          forall k | 0 <= k < |s| - 1 ensures s[1..][k] != '>' {
            assert s[1..][k] == s[k + 1];
          }
        }
      } else {
        TagFreeTail(s);
        StripTagsOfTagFree(s[1..]);
        assert s == [s[0]] + s[1..];
      }
    }
  }

  /** Stripping twice strips nothing more. */
  lemma StripTagsIdempotent(s: string)
    ensures StripTags(StripTags(s)) == StripTags(s)
  {
    StripTagsTagFree(s);
    StripTagsOfTagFree(StripTags(s));
  }

  /** Text before the first '<' is kept as it is. */
  lemma {:induction false} StripTagsPlainPrefix(a: string, rest: string)
    requires '<' !in a
    ensures StripTags(a + rest) == a + StripTags(rest)
    decreases |a|
  {
    if a != [] {
      assert (a + rest)[0] == a[0] && (a + rest)[1..] == a[1..] + rest;
      assert StripTags(a + rest) == [a[0]] + StripTags(a[1..] + rest);
      StripTagsPlainPrefix(a[1..], rest);
      assert a + StripTags(rest) == [a[0]] + (a[1..] + StripTags(rest));
    } else {
      assert a + rest == rest;
    }
  }

  /** A leading tag `<b>` is dropped whole. */
  lemma StripTagsLeadingTag(b: string, c: string)
    requires '>' !in b
    ensures StripTags(['<'] + b + ['>'] + c) == StripTags(c)
  {
    var tag := ['<'] + b + ['>'] + c;
    var tail := tag[1..];
    assert tail == b + ['>'] + c;
    assert tail[|b|] == '>' && tail[..|b|] == b;
    assert IndexOfChar(tail, '>') == Some(|b|);
    assert tag[|b| + 2..] == c;
  }

  /** A tag `<b>` between plain text and the rest is dropped whole. */
  lemma StripTagsDropsTag(a: string, b: string, c: string)
    requires '<' !in a && '>' !in b
    ensures StripTags(a + ['<'] + b + ['>'] + c) == a + StripTags(c)
  {
    var tag := ['<'] + b + ['>'] + c;
    assert a + ['<'] + b + ['>'] + c == a + tag;
    StripTagsPlainPrefix(a, tag);
    StripTagsLeadingTag(b, c);
  }

  /** A tag-free text stays tag-free under a global replace whose replacement
      holds neither '<' nor '>'. */
  lemma {:induction false} ReplaceAllKeepsTagFree(s: string, p: string, r: string)
    requires |p| > 0 && TagFree(s) && '<' !in r && '>' !in r
    ensures TagFree(ReplaceAll(s, p, r))
    decreases |s|
  {
    var t := ReplaceAll(s, p, r);
    if |s| >= |p| {
      if s[..|p|] == p {
        var rest := s[|p|..];
        assert TagFree(rest) by {
          forall i, j | 0 <= i < j < |rest| && rest[i] == '<' ensures rest[j] != '>' {
            assert rest[i] == s[i + |p|] && rest[j] == s[j + |p|];
          }
        }
        ReplaceAllKeepsTagFree(rest, p, r);
        var u := ReplaceAll(rest, p, r);
        assert t == r + u;
        forall i, j | 0 <= i < j < |t| && t[i] == '<' ensures t[j] != '>' {
          if i >= |r| {
            assert t[i] == u[i - |r|] && t[j] == u[j - |r|];
          }
        }
      } else {
        TagFreeTail(s);
        ReplaceAllKeepsTagFree(s[1..], p, r);
        ReplaceAllChars(s[1..], p, r);
        var u := ReplaceAll(s[1..], p, r);
        assert t == [s[0]] + u;
        forall i, j | 0 <= i < j < |t| && t[i] == '<' ensures t[j] != '>' {
          if i == 0 {
            assert t[j] == u[j - 1];
          } else {
            assert t[i] == u[i - 1] && t[j] == u[j - 1];
          }
        }
      }
    }
  }
}
