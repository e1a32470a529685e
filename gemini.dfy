/**
 * The generateContent response envelope of the Gemini API, as far as the
 * generation code reads it, and the two text-recovery steps both callers
 * share: picking the first part with non-blank text and cutting a text down
 * to the span from its first `{` to its last `}`.
 */
module Gemini {
  import opened Wrappers
  import opened Builtins

  /** A content part; `text` is None when the part carries no string `text` field. */
  datatype Part = Part(text: Option<string>)

  /** `candidate.content`; `parts` is None when the field is absent. */
  datatype Content = Content(parts: Option<seq<Part>>)

  /** One candidate; `content` is None when the field is absent. */
  datatype Candidate = Candidate(content: Option<Content>)

  /** The decoded response body; `candidates` is None when the field is absent. */
  datatype Response = Response(candidates: Option<seq<Candidate>>)

  /** `typeof p?.text === 'string' && p.text.trim().length > 0` */
  predicate HasText(p: Part)
  {
    p.text.Some? && NonBlank(p.text.value)
  }

  /** `parts.find(HasText)`, as the position of the part found. */
  function FindTextPart(parts: seq<Part>): (r: Option<nat>)
    ensures r.Some? ==> r.value < |parts| && HasText(parts[r.value])
                        && forall j :: 0 <= j < r.value ==> !HasText(parts[j])
    ensures r.None? <==> forall j :: 0 <= j < |parts| ==> !HasText(parts[j])
  {
    if |parts| == 0 then None
    else if HasText(parts[0]) then Some(0)
    else
      match FindTextPart(parts[1..])
      case None => None
      case Some(k) => Some(k + 1)
  }

  /** Some `{` stands before some `}`. */
  predicate BracePair(t: string)
  {
    exists i, j :: 0 <= i < j < |t| && t[i] == '{' && t[j] == '}'
  }

  /** The first `{` precedes the last `}` exactly when some `{` precedes some `}`. */
  lemma BracePairIndices(t: string)
    ensures var s, e := IndexOf(t, '{'), LastIndexOf(t, '}');
      (s != -1 && e != -1 && e > s) <==> BracePair(t)
  {
    var s, e := IndexOf(t, '{'), LastIndexOf(t, '}');
    if BracePair(t) {
      var i, j :| 0 <= i < j < |t| && t[i] == '{' && t[j] == '}';
      assert 0 <= s <= i && j <= e;
    }
  }

  /** `t[i]` is the first `{` of `t` and `t[j]` the last `}`, and the first comes before the last. */
  predicate OutermostBraces(t: string, i: int, j: int)
  {
    0 <= i < j < |t| && t[i] == '{' && t[j] == '}' && '{' !in t[..i] && '}' !in t[j + 1..]
  }

  /** The positions `indexOf` and `lastIndexOf` report are the outermost braces. */
  lemma IndicesAreOutermost(t: string)
    requires BracePair(t)
    ensures OutermostBraces(t, IndexOf(t, '{'), LastIndexOf(t, '}'))
  {
    var s, e := IndexOf(t, '{'), LastIndexOf(t, '}');
    BracePairIndices(t);
    assert '{' !in t[..s] by {
      forall k | 0 <= k < s ensures t[..s][k] != '{' {
        assert t[..s][k] == t[k];
      }
    }
    assert '}' !in t[e + 1..] by {
      var post := t[e + 1..];
      forall k | 0 <= k < |post| ensures post[k] != '}' {
        assert post[k] == t[e + 1 + k];
      }
    }
  }

  /**
   * `const s = t.indexOf('{'); const e = t.lastIndexOf('}');
   *  if (s !== -1 && e !== -1 && e > s) t = t.slice(s, e + 1);`
   */
  function SliceToBraces(t: string): (r: string)
    ensures BracePair(t) ==> exists i, j :: OutermostBraces(t, i, j) && r == t[i..j + 1]
    ensures !BracePair(t) ==> r == t
    ensures BracePair(t) ==> r == t[IndexOf(t, '{')..LastIndexOf(t, '}') + 1]
  {
    var s, e := IndexOf(t, '{'), LastIndexOf(t, '}');
    BracePairIndices(t);
    if s != -1 && e != -1 && e > s then
      IndicesAreOutermost(t);
      t[s..e + 1]
    else t
  }

  /** Cutting to the braces cannot create an occurrence of a pattern. */
  lemma SliceKeepsAbsence(t: string, p: string)
    requires !Contains(t, p)
    ensures !Contains(SliceToBraces(t), p)
  {
    if BracePair(t) {
      BracePairIndices(t);
      NotContainsSlice(t, p, IndexOf(t, '{'), LastIndexOf(t, '}') + 1);
    }
  }

  /**
   * Commentary around a JSON object is cut away: the object is recovered when
   * nothing before it opens a brace and nothing after it closes one.
   */
  lemma SliceToBracesRecovers(pre: string, body: string, post: string)
    requires '{' !in pre && '}' !in post
    requires |body| >= 2 && body[0] == '{' && body[|body| - 1] == '}'
    ensures SliceToBraces(pre + body + post) == body
  {
    var t := pre + body + post;
    assert t == pre + (body + post);
    IndexOfAfter(pre, body + post, '{');
    LastIndexOfBefore(pre + body, post, '}');
    var s, e := |pre|, |pre| + |body| - 1;
    assert t[s..e + 1] == body;
  }
}
