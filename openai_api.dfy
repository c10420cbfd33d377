/**
 * OpenAIAPI.js after the HTTP call: the check of the response shape, the
 * extraction of the JSON text from a ```json code fence, and the pass that
 * moves a `[TaskID: …]` marker out of each task name into `task_id`.
 */
module OpenAiApi {
  import opened Js

  // ---------------------------------------------------------------------------
  // Response shape
  // ---------------------------------------------------------------------------

  datatype Message = Message(content: Option<string>)
  datatype Choice = Choice(message: Option<Message>)
  /** The parsed response; `None` stands for a missing or null property. */
  datatype ChatResponse = ChatResponse(choices: Option<seq<Choice>>)

  /** `choices[0].message.content` is present and truthy. */
  predicate HasContent(resp: ChatResponse)
  {
    resp.choices.Some? && |resp.choices.value| > 0 && resp.choices.value[0].message.Some?
    && Truthy(resp.choices.value[0].message.value.content)
  }

  /** The content of the first choice, or the "Unexpected response structure" error. */
  function ExtractContent(resp: ChatResponse): (r: Result<string, Error>)
    ensures r.Ok? <==> HasContent(resp)
    ensures r.Ok? ==> r.value != "" && Some(r.value) == resp.choices.value[0].message.value.content
    ensures r.Err? ==> r.error == UnexpectedResponse
  {
    if HasContent(resp) then Ok(resp.choices.value[0].message.value.content.value) else Err(UnexpectedResponse)
  }

  // ---------------------------------------------------------------------------
  // Code fence
  // ---------------------------------------------------------------------------

  const Opener: string := "```json\n"
  const Closer: string := "\n```"

  predicate OccursAt(s: string, pat: string, i: int)
  {
    0 <= i && i + |pat| <= |s| && s[i..i + |pat|] == pat
  }

  /** The first index from `from` on where `pat` occurs. */
  function FindFirst(s: string, pat: string, from: nat): (r: Option<nat>)
    ensures r.Some? ==> from <= r.value && OccursAt(s, pat, r.value)
    ensures forall i :: from <= i && (r.Some? ==> i < r.value) ==> !OccursAt(s, pat, i)
    decreases |s| - from
  {
    if from + |pat| > |s| then None
    else if s[from..from + |pat|] == pat then Some(from)
    else FindFirst(s, pat, from + 1)
  }

  /** The last index below `bound` where `pat` occurs. */
  function FindLast(s: string, pat: string, bound: nat): (r: Option<nat>)
    ensures r.Some? ==> r.value < bound && OccursAt(s, pat, r.value)
    ensures forall i :: 0 <= i < bound && (r.Some? ==> r.value < i) ==> !OccursAt(s, pat, i)
  {
    if bound == 0 then None
    else if OccursAt(s, pat, bound - 1) then Some(bound - 1)
    else FindLast(s, pat, bound - 1)
  }

  /** An opener at `p` and a closer at `q` that enclose a (possibly empty) group. */
  predicate FencePair(content: string, p: int, q: int)
  {
    OccursAt(content, Opener, p) && p + |Opener| <= q && OccursAt(content, Closer, q)
  }

  /**
   * The match of `/```json\n([\s\S]*)\n```/` as the pair (start of the group,
   * end of the group). There is a match exactly when some opener has a closer
   * after it; the leftmost match starts at the first opener and, the group
   * being greedy, ends at the last closer.
   */
  function FenceMatch(content: string): (m: Option<(nat, nat)>)
    ensures m.None? <==> !exists p, q :: FencePair(content, p, q)
    ensures m.Some? ==> FencePair(content, m.value.0 - |Opener|, m.value.1)
    ensures m.Some? ==> forall i :: 0 <= i < m.value.0 - |Opener| ==> !OccursAt(content, Opener, i)
    ensures m.Some? ==> forall i :: m.value.1 < i ==> !OccursAt(content, Closer, i)
  {
    match FindFirst(content, Opener, 0)
    case None => None
    case Some(p) =>
      match FindLast(content, Closer, |content| + 1)
      case None =>
        assert forall q :: OccursAt(content, Closer, q) ==> q < |content| + 1;
        None
      case Some(q) =>
        if p + |Opener| <= q then
          assert FencePair(content, p, q);
          Some((p + |Opener|, q))
        else
          assert forall p', q' :: FencePair(content, p', q') ==> p <= p' && q' <= q;
          None
  }

  /** `p` is where the first opener of `content` starts. */
  predicate FirstOpener(content: string, p: int)
  {
    OccursAt(content, Opener, p) && forall i :: 0 <= i < p ==> !OccursAt(content, Opener, i)
  }

  /** `q` is where the last closer of `content` starts. */
  predicate LastCloser(content: string, q: int)
  {
    OccursAt(content, Closer, q) && forall i :: q < i < |content| ==> !OccursAt(content, Closer, i)
  }

  /**
   * `(contentText.match(...) || [null, contentText])[1].trim()`: the text between
   * the first opener and the last closer, trimmed, when that closer lies after
   * the opener, and otherwise the whole content, trimmed.
   */
  function ExtractJson(content: string): (json: string)
    ensures (!exists p, q :: FencePair(content, p, q)) ==> json == Trim(content)
    ensures forall p, q :: (FirstOpener(content, p) && LastCloser(content, q) && p + |Opener| <= q)
                           ==> json == Trim(content[p + |Opener|..q])
  {
    match FenceMatch(content)
    case None => Trim(content)
    case Some((a, b)) =>
      assert FirstOpener(content, a - |Opener|) && LastCloser(content, b);
      FirstAndLastUnique(content, a - |Opener|, b);
      Trim(content[a..b])
  }

  /** There is only one first opener and one last closer. */
  lemma FirstAndLastUnique(content: string, p: int, q: int)
    requires FirstOpener(content, p) && LastCloser(content, q)
    ensures forall p' :: FirstOpener(content, p') ==> p' == p
    ensures forall q' :: LastCloser(content, q') ==> q' == q
  {
    forall p' | FirstOpener(content, p') ensures p' == p {
      assert !(p' < p) && !(p < p');
    }
    forall q' | LastCloser(content, q') ensures q' == q {
      assert !(q' < q) && !(q < q');
    }
  }

  /** The JSON text the classifier's answer is parsed from. */
  function ClassifierJson(resp: ChatResponse): (r: Result<string, Error>)
    ensures r.Ok? <==> HasContent(resp)
    ensures r.Ok? ==> r.value == ExtractJson(ExtractContent(resp).value)
  {
    match ExtractContent(resp)
    case Err(e) => Err(e)
    case Ok(content) => Ok(ExtractJson(content))
  }

  /** A body wrapped in a json fence comes back trimmed, whatever the body holds. */
  lemma FenceRoundTrip(body: string)
    ensures ExtractJson(Opener + body + Closer) == Trim(body)
  {
    var s := Opener + body + Closer;
    assert OccursAt(s, Opener, 0) by { assert s[..8] == Opener; }
    assert OccursAt(s, Closer, |body| + 8) by { assert s[|body| + 8..] == Closer; }
    assert FirstOpener(s, 0);
    assert LastCloser(s, |body| + 8);
    assert s[8..|body| + 8] == body;
  }

  /** Without a closing fence the whole content is the JSON, trimmed. */
  lemma NoClosingFence(content: string)
    requires forall i :: !OccursAt(content, Closer, i)
    ensures ExtractJson(content) == Trim(content)
  {
  }

  // ---------------------------------------------------------------------------
  // The [TaskID: …] marker
  // ---------------------------------------------------------------------------

  const Marker: string := "[TaskID: "

  /** The first `]` from `k` on, unless a line terminator or the end of `s` comes first. */
  function CloseFrom(s: string, k: nat): (j: Option<nat>)
    requires k <= |s|
    ensures j.Some? ==> (k <= j.value < |s| && s[j.value] == ']'
                         && forall i :: k <= i < j.value ==> s[i] != ']' && !IsLineTerminator(s[i]))
    ensures j.None? ==> forall e :: k <= e < |s| && s[e] == ']' ==> exists i :: k <= i < e && IsLineTerminator(s[i])
    decreases |s| - k
  {
    if k >= |s| then None
    else if s[k] == ']' then Some(k)
    else if IsLineTerminator(s[k]) then None
    else CloseFrom(s, k + 1)
  }

  /**
   * Where `(.+?)\]` ends when the marker starts at `p`: the group takes at
   * least one character that is not a line terminator (that one may be `]`),
   * and stops at the first `]` after it.
   */
  function MarkerEnd(s: string, p: nat): (j: Option<nat>)
    requires OccursAt(s, Marker, p)
    ensures j.Some? ==> (p + |Marker| < j.value < |s| && s[j.value] == ']'
                         && (forall i :: p + |Marker| <= i < j.value ==> !IsLineTerminator(s[i]))
                         && forall i :: p + |Marker| < i < j.value ==> s[i] != ']')
    ensures j.None? ==> forall e :: p + |Marker| < e < |s| && s[e] == ']' ==>
                          exists i :: p + |Marker| <= i < e && IsLineTerminator(s[i])
  {
    var k := p + |Marker|;
    if k >= |s| || IsLineTerminator(s[k]) then None
    else CloseFrom(s, k + 1)
  }

  /** The leftmost match of `/\[TaskID: (.+?)\]/` from `from` on, as (start, closing bracket). */
  function FindMarker(s: string, from: nat): (m: Option<(nat, nat)>)
    ensures m.Some? ==> (from <= m.value.0 && OccursAt(s, Marker, m.value.0)
                         && MarkerEnd(s, m.value.0) == Some(m.value.1))
    ensures forall p :: from <= p && (m.Some? ==> p < m.value.0) && OccursAt(s, Marker, p) ==> MarkerEnd(s, p).None?
    decreases |s| - from
  {
    if from + |Marker| > |s| then None
    else if OccursAt(s, Marker, from) && MarkerEnd(s, from).Some? then Some((from, MarkerEnd(s, from).value))
    else FindMarker(s, from + 1)
  }

  /** The TaskID a name carries and the name without its marker, or `None` without a match. */
  function ExtractMarker(name: string): (r: Option<(string, string)>)
    ensures r.Some? <==> FindMarker(name, 0).Some?
    ensures r.Some? ==> var (p, j) := FindMarker(name, 0).value;
      r.value.0 == name[p + |Marker|..j] && r.value.1 == Trim(name[..p] + name[j + 1..])
  {
    match FindMarker(name, 0)
    case None => None
    case Some((p, j)) => Some((name[p + |Marker|..j], Trim(name[..p] + name[j + 1..])))
  }

  /**
   * A marker followed, on the same line, by a `]` that is not the first
   * character after it is always matched, whatever text precedes it: the
   * leftmost match starts at or before it.
   */
  lemma MarkerFound(s: string, p: nat, e: nat)
    requires OccursAt(s, Marker, p)
    requires p + |Marker| < e < |s| && s[e] == ']'
    requires forall i :: p + |Marker| <= i < e ==> !IsLineTerminator(s[i])
    ensures MarkerEnd(s, p).Some?
    ensures ExtractMarker(s).Some? && FindMarker(s, 0).value.0 <= p
  {
    assert MarkerEnd(s, p).Some?;
  }

  /**
   * When, besides, no earlier text spells the marker, the leftmost match is
   * this one, so ExtractMarker reads the id up to the first `]` after it.
   */
  lemma FirstMarkerFound(s: string, p: nat, e: nat)
    requires OccursAt(s, Marker, p)
    requires p + |Marker| < e < |s| && s[e] == ']'
    requires forall i :: p + |Marker| <= i < e ==> !IsLineTerminator(s[i])
    requires forall q :: 0 <= q < p ==> !OccursAt(s, Marker, q)
    ensures MarkerEnd(s, p).Some?
    ensures FindMarker(s, 0) == Some((p, MarkerEnd(s, p).value))
  {
    MarkerFound(s, p, e);
    var j := MarkerEnd(s, p).value;
    var m := FindMarker(s, 0).value;
    assert m.0 == p by {
      assert OccursAt(s, Marker, m.0);
    }
    assert FindMarker(s, 0) == Some((p, j));
  }

  /**
   * The text `replace` removes is exactly the marker around the extracted id,
   * since both calls use the same pattern; the id is not empty and holds no
   * line terminator.
   */
  lemma RemovedIsMarker(name: string)
    requires FindMarker(name, 0).Some?
    ensures var (p, j) := FindMarker(name, 0).value;
      var id := ExtractMarker(name).value.0;
      |id| >= 1 && (forall i :: 0 <= i < |id| ==> !IsLineTerminator(id[i]))
      && name == name[..p] + Marker + id + [']'] + name[j + 1..]
  {
    var (p, j) := FindMarker(name, 0).value;
    Pieces(name, p, p + |Marker|, j);
  }

  /** `s` cut at `p`, `q` and around the character at `j`. */
  lemma Pieces(s: string, p: nat, q: nat, j: nat)
    requires p <= q <= j < |s|
    ensures s == s[..p] + s[p..q] + s[q..j] + [s[j]] + s[j + 1..]
  {
    assert s[..j] == s[..p] + s[p..q] + s[q..j];
    assert s == s[..j] + [s[j]] + s[j + 1..];
  }

  lemma {:induction false} NoMarkerBefore(s: string, a: nat, from: nat)
    requires from <= a <= |s| && '[' !in s[..a]
    ensures FindMarker(s, from) == FindMarker(s, a)
    decreases a - from
  {
    if from < a {
      assert s[from] == s[..a][from];
      assert !OccursAt(s, Marker, from) by {
        if from + |Marker| <= |s| {
          assert s[from..from + |Marker|][0] == s[from];
        }
      }
      NoMarkerBefore(s, a, from + 1);
    }
  }

  lemma {:induction false} CloseAfterId(s: string, k: nat, j: nat)
    requires k <= j < |s| && s[j] == ']'
    requires forall i :: k <= i < j ==> s[i] != ']' && !IsLineTerminator(s[i])
    ensures CloseFrom(s, k) == Some(j)
    decreases j - k
  {
    if k < j {
      CloseAfterId(s, k + 1, j);
    }
  }

  /**
   * A marker placed after text without `[`, around an id of at least one
   * character without `]` or line terminators, is found again: the id is
   * recovered and the name is what surrounds the marker, trimmed.
   */
  lemma MarkerRoundTrip(before: string, id: string, after: string)
    requires '[' !in before
    requires |id| >= 1 && forall i :: 0 <= i < |id| ==> id[i] != ']' && !IsLineTerminator(id[i])
    ensures ExtractMarker(before + Marker + id + [']'] + after) == Some((id, Trim(before + after)))
  {
    var s := before + Marker + id + [']'] + after;
    var p := |before|;
    var j := p + |Marker| + |id|;
    assert s[..p] == before;
    assert s[p..p + |Marker|] == Marker;
    assert s[p + |Marker|..j] == id;
    assert s[j] == ']';
    assert s[j + 1..] == after;
    forall i | p + |Marker| + 1 <= i < j
      ensures s[i] != ']' && !IsLineTerminator(s[i])
    {
      assert s[i] == id[i - p - |Marker|];
    }
    assert !IsLineTerminator(s[p + |Marker|]) by { assert s[p + |Marker|] == id[0]; }
    CloseAfterId(s, p + |Marker| + 1, j);
    assert MarkerEnd(s, p) == Some(j);
    NoMarkerBefore(s, p, 0);
  }

  /** A name without `[` carries no marker and is left as it is. */
  lemma NoBracketNoMarker(name: string)
    requires '[' !in name
    ensures ExtractMarker(name).None?
  {
    NoMarkerBefore(name, |name|, 0);
  }

  // ---------------------------------------------------------------------------
  // The TaskID pass over the categorised tasks
  // ---------------------------------------------------------------------------

  /**
   * An element of the parsed JSON array: anything that is not an object, or an
   * object with its `task`, `category`, `client`, `cleaned_task` and `task_id`
   * properties (`None` for a missing one, and for a `task` that is not a string).
   */
  datatype CatEntry =
    | NotObject
    | Entry(task: Option<string>, category: Option<string>, client: Option<string>,
            cleanedTask: Option<string>, taskId: Option<string>)

  /** `task.task.match(...)` does not throw. */
  predicate Readable(e: CatEntry)
  {
    e.Entry? && e.task.Some?
  }

  /** The entry after the body of the `forEach`. */
  function Preserved(e: CatEntry): (r: CatEntry)
    requires Readable(e)
    ensures r.Entry? && r.category == e.category && r.client == e.client && r.cleanedTask == e.cleanedTask
    ensures ExtractMarker(e.task.value).None? ==> r == e
    ensures ExtractMarker(e.task.value).Some? ==>
      r.taskId == Some(ExtractMarker(e.task.value).value.0) && r.task == Some(ExtractMarker(e.task.value).value.1)
  {
    match ExtractMarker(e.task.value)
    case None => e
    case Some((id, rest)) => e.(taskId := Some(id), task := Some(rest))
  }

  /** The index of the first entry whose `task` cannot be matched, or `|es|`. */
  function FirstUnreadable(es: seq<CatEntry>): (k: nat)
    ensures k <= |es| && (k < |es| ==> !Readable(es[k]))
    ensures forall i :: 0 <= i < k ==> Readable(es[i])
  {
    if es == [] then 0
    else if !Readable(es[0]) then 0
    else FirstUnreadable(es[1..]) + 1
  }

  /**
   * The `forEach` that preserves TaskIDs. The entries are updated in place;
   * an entry that cannot be read throws a TypeError, leaving the entries
   * before it updated and those from it on untouched.
   */
  method PreserveTaskIds(entries: array<CatEntry>) returns (error: Option<Error>)
    modifies entries
    ensures var stop := FirstUnreadable(old(entries[..]));
      (error.None? <==> stop == entries.Length)
      && (error.Some? ==> error.value == TypeError)
      && (forall k :: 0 <= k < stop ==> entries[k] == Preserved(old(entries[k])))
      && (forall k :: stop <= k < entries.Length ==> entries[k] == old(entries[k]))
  {
    ghost var original := entries[..];
    var i := 0;
    while i < entries.Length
      invariant 0 <= i <= entries.Length
      invariant forall k :: 0 <= k < i ==> Readable(original[k]) && entries[k] == Preserved(original[k])
      invariant forall k :: i <= k < entries.Length ==> entries[k] == original[k]
    {
      var e := entries[i];
      if !Readable(e) {
        UnreadableStops(original, i);
        return Some(TypeError);
      }
      entries[i] := Preserved(e);
      i := i + 1;
    }
    UnreadableStops(original, i);
    return None;
  }

  lemma {:induction false} UnreadableStops(es: seq<CatEntry>, i: nat)
    requires i <= |es| && forall k :: 0 <= k < i ==> Readable(es[k])
    requires i == |es| || !Readable(es[i])
    ensures FirstUnreadable(es) == i
  {
    if i > 0 {
      if i < |es| {
        assert es[1..][i - 1] == es[i];
      }
      UnreadableStops(es[1..], i - 1);
    }
  }

  /** An entry changes exactly when its name carries a marker. */
  lemma PreservedChangesOnlyMarkedNames(e: CatEntry)
    requires Readable(e)
    ensures ExtractMarker(e.task.value).None? <==> Preserved(e) == e
  {
    match ExtractMarker(e.task.value)
    case None =>
    case Some((id, rest)) =>
      RemovedIsMarker(e.task.value);
      var (p, j) := FindMarker(e.task.value, 0).value;
      assert |rest| <= |e.task.value[..p] + e.task.value[j + 1..]|;
  }
}
