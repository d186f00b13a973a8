/**
 * The tag-list editing shared by the note form and the note card: a tag is
 * committed with Enter or a comma, trimmed, and appended only when new; a tag
 * is removed with all its occurrences.
 */
module Tags {
  import opened Seqs

  /** The characters `String.prototype.trim` strips: white space and line terminators. */
  predicate IsSpace(c: char)
  {
    || c == '\U{0009}' || c == '\U{000A}' || c == '\U{000B}' || c == '\U{000C}' || c == '\U{000D}'
    || c == ' ' || c == '\U{00A0}' || c == '\U{1680}' || ('\U{2000}' <= c <= '\U{200A}')
    || c == '\U{2028}' || c == '\U{2029}' || c == '\U{202F}' || c == '\U{205F}' || c == '\U{3000}'
    || c == '\U{FEFF}'
  }

  predicate AllSpace(s: string)
  {
    forall i :: 0 <= i < |s| ==> IsSpace(s[i])
  }

  /** The number of leading white-space characters. */
  function Lead(s: string): (i: nat)
    ensures i <= |s| && AllSpace(s[..i])
    ensures i < |s| ==> !IsSpace(s[i])
    decreases |s|
  {
    if s == [] || !IsSpace(s[0]) then 0
    else
      var i := 1 + Lead(s[1..]);
      assert forall k :: 1 <= k < i ==> s[..i][k] == s[1..][..i - 1][k - 1];
      i
  }

  /** Where the trailing white space begins. */
  function Trail(s: string): (j: nat)
    ensures j <= |s| && AllSpace(s[j..])
    ensures j > 0 ==> !IsSpace(s[j - 1])
    decreases |s|
  {
    if s == [] || !IsSpace(s[|s| - 1]) then |s|
    else
      var j := Trail(s[..|s| - 1]);
      assert forall k :: j <= k < |s| - 1 ==> s[k] == s[..|s| - 1][k];
      j
  }

  /**
   * `trim()`: `s` minus its leading and trailing white space. The result is
   * empty exactly for a blank string, and otherwise starts and ends with a
   * character that is not white space.
   */
  function Trim(s: string): (r: string)
    ensures AllSpace(s) <==> r == []
    ensures r != [] ==> !IsSpace(r[0]) && !IsSpace(r[|r| - 1])
    ensures Lead(s) + |r| <= |s| && r == s[Lead(s)..Lead(s) + |r|] && AllSpace(s[Lead(s) + |r|..])
  {
    var i := Lead(s);
    if i == |s| then
      assert s[..i] == s;
      []
    else
      var j := Trail(s);
      assert j > i;
      assert !AllSpace(s) by { assert !IsSpace(s[i]); }
      s[i..j]
  }

  /** Leading white space of `a + t`, with `a` blank, is `a` plus that of `t`. */
  lemma {:induction false} LeadAfterSpace(a: string, t: string)
    requires AllSpace(a)
    ensures Lead(a + t) == |a| + Lead(t)
    decreases |a|
  {
    if a != [] {
      assert (a + t)[1..] == a[1..] + t;
      assert (a + t)[0] == a[0];
      LeadAfterSpace(a[1..], t);
    } else {
      assert a + t == t;
    }
  }

  /** Trailing white space of `t + b`, with `b` blank, starts where that of `t` does. */
  lemma {:induction false} TrailBeforeSpace(t: string, b: string)
    requires AllSpace(b)
    ensures Trail(t + b) == Trail(t)
    decreases |b|
  {
    if b != [] {
      var b' := b[..|b| - 1];
      assert (t + b)[..|t + b| - 1] == t + b';
      assert (t + b)[|t + b| - 1] == b[|b| - 1];
      TrailBeforeSpace(t, b');
    } else {
      assert t + b == t;
    }
  }

  /**
   * Trimming is determined by its result: whenever `s` is blank space, then a
   * core that is empty or has non-blank ends, then blank space, that core is
   * `Trim(s)`.
   */
  lemma TrimCharacterized(a: string, m: string, b: string)
    requires AllSpace(a) && AllSpace(b)
    requires m != [] ==> !IsSpace(m[0]) && !IsSpace(m[|m| - 1])
    ensures Trim(a + m + b) == m
  {
    if m == [] {
      BlankTrimsEmpty(a, b);
      assert a + m + b == a + b;
    } else {
      CoreTrimmed(a, m, b);
    }
  }

  lemma BlankTrimsEmpty(a: string, b: string)
    requires AllSpace(a) && AllSpace(b)
    ensures Trim(a + b) == []
  {
    var s := a + b;
    forall k | 0 <= k < |s| ensures IsSpace(s[k]) {
      if k < |a| { assert s[k] == a[k]; } else { assert s[k] == b[k - |a|]; }
    }
  }

  lemma CoreTrimmed(a: string, m: string, b: string)
    requires AllSpace(a) && AllSpace(b)
    requires m != [] && !IsSpace(m[0]) && !IsSpace(m[|m| - 1])
    ensures Trim(a + m + b) == m
  {
    var s := a + m + b;
    CoreLead(a, m, b);
    CoreTrail(a, m, b);
    assert s[|a|] == m[0];
    TrimBetween(s);
    assert s[|a|..|a| + |m|] == m;
  }

  lemma CoreLead(a: string, m: string, b: string)
    requires AllSpace(a) && m != [] && !IsSpace(m[0])
    ensures Lead(a + m + b) == |a|
  {
    LeadAfterSpace(a, m + b);
    assert a + (m + b) == a + m + b;
    assert (m + b)[0] == m[0];
  }

  lemma CoreTrail(a: string, m: string, b: string)
    requires AllSpace(b) && m != [] && !IsSpace(m[|m| - 1])
    ensures Trail(a + m + b) == |a| + |m|
  {
    TrailBeforeSpace(a + m, b);
    assert (a + m)[|a + m| - 1] == m[|m| - 1];
  }

  /** A string with a non-blank character trims to what lies between its blank ends. */
  lemma TrimBetween(s: string)
    requires !AllSpace(s)
    ensures Lead(s) < Trail(s) && Trim(s) == s[Lead(s)..Trail(s)]
  {
  }

  /** Trimming twice is trimming once. */
  lemma TrimIdempotent(s: string)
    ensures Trim(Trim(s)) == Trim(s)
  {
    var r := Trim(s);
    TrimCharacterized([], r, []);
    assert [] + r + [] == r;
  }

  /** The tags being edited and the contents of the tag input field. */
  datatype TagEditor = TagEditor(tags: seq<string>, input: string)

  /** The keys that commit the tag input. */
  predicate Commits(key: string)
  {
    key == "Enter" || key == ","
  }

  /**
   * `handleTagKeyDown`: Enter or a comma over a non-blank input commits the
   * trimmed input, appending it only when it is not already a tag, and clears
   * the input; any other key event changes nothing.
   */
  function KeyDown(ed: TagEditor, key: string): (r: TagEditor)
    ensures !(Commits(key) && Trim(ed.input) != "") ==> r == ed
    ensures Commits(key) && Trim(ed.input) != "" ==>
      && r.input == ""
      && (forall t :: t in r.tags <==> t in ed.tags || t == Trim(ed.input))
      && (Trim(ed.input) in ed.tags ==> r.tags == ed.tags)
      && (Trim(ed.input) !in ed.tags ==> r.tags == ed.tags + [Trim(ed.input)])
    ensures NoDup(ed.tags) ==> NoDup(r.tags)
  {
    if Commits(key) && Trim(ed.input) != "" then
      var tag := Trim(ed.input);
      if tag in ed.tags then TagEditor(ed.tags, "")
      else
        var tags := ed.tags + [tag];
        assert forall i :: 0 <= i < |ed.tags| ==> tags[i] == ed.tags[i];
        TagEditor(tags, "")
    else ed
  }

  /**
   * `tags.filter(tag => tag !== t)`: every occurrence of `t` goes, every other
   * tag keeps its number of occurrences and its relative order.
   */
  function Without(tags: seq<string>, t: string): (r: seq<string>)
    ensures t !in r
    ensures forall x :: x != t ==> multiset(r)[x] == multiset(tags)[x]
    ensures SubSeq(r, tags)
    ensures NoDup(tags) ==> NoDup(r)
    decreases |tags|
  {
    if tags == [] then []
    else
      var rest := Without(tags[1..], t);
      assert tags == [tags[0]] + tags[1..];
      if tags[0] == t then rest
      else
        assert ([tags[0]] + rest)[1..] == rest;
        assert NoDup(tags) ==> tags[0] !in rest by {
          if NoDup(tags) { assert tags[0] !in tags[1..]; }
        }
        [tags[0]] + rest
  }

  /** Removing a tag nobody has changes nothing. */
  lemma {:induction false} WithoutAbsent(tags: seq<string>, t: string)
    requires t !in tags
    ensures Without(tags, t) == tags
    decreases |tags|
  {
    if tags != [] {
      WithoutAbsent(tags[1..], t);
    }
  }

  /** Removing after an append removes the appended tag and whatever else matched before. */
  lemma {:induction false} WithoutSnoc(tags: seq<string>, t: string)
    ensures Without(tags + [t], t) == Without(tags, t)
    decreases |tags|
  {
    if tags == [] {
      assert Without([t], t) == Without([], t) by { assert [t][1..] == []; }
    } else {
      assert (tags + [t])[1..] == tags[1..] + [t];
      assert (tags + [t])[0] == tags[0];
      WithoutSnoc(tags[1..], t);
    }
  }

  /**
   * Committing a new tag and then removing it restores the tag list: removal
   * undoes an accepted key event.
   */
  lemma AddThenRemove(ed: TagEditor, key: string)
    requires Trim(ed.input) !in ed.tags
    ensures Without(KeyDown(ed, key).tags, Trim(ed.input)) == ed.tags
  {
    var tag := Trim(ed.input);
    if Commits(key) && tag != "" {
      WithoutSnoc(ed.tags, tag);
    }
    WithoutAbsent(ed.tags, tag);
  }

  /** An edit of the tag list: typing into the input, a key event, or a tag's remove button. */
  datatype TagEvent = Typing(text: string) | Press(key: string) | Remove(tag: string)

  function Step(ed: TagEditor, ev: TagEvent): TagEditor
  {
    match ev
    case Typing(text) => ed.(input := text)
    case Press(key) => KeyDown(ed, key)
    case Remove(tag) => ed.(tags := Without(ed.tags, tag))
  }

  /** The editor after a run of events. */
  function Run(ed: TagEditor, events: seq<TagEvent>): TagEditor
    decreases |events|
  {
    if events == [] then ed else Run(Step(ed, events[0]), events[1..])
  }

  /** A tag as the editor stores it: trimmed and not blank. */
  predicate Clean(t: string)
  {
    t != "" && Trim(t) == t
  }

  /** Editors that start clean stay clean: no duplicates, only trimmed non-blank tags. */
  lemma {:induction false} RunKeepsClean(ed: TagEditor, events: seq<TagEvent>)
    requires NoDup(ed.tags) && forall t :: t in ed.tags ==> Clean(t)
    ensures NoDup(Run(ed, events).tags)
    ensures forall t :: t in Run(ed, events).tags ==> Clean(t)
    decreases |events|
  {
    if events != [] {
      var next := Step(ed, events[0]);
      if events[0].Press? {
        TrimIdempotent(ed.input);
      } else if events[0].Remove? {
        forall t | t in next.tags ensures Clean(t) {
          assert multiset(next.tags)[t] == multiset(ed.tags)[t];
        }
      }
      RunKeepsClean(next, events[1..]);
    }
  }
}
