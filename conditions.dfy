/** The two small text helpers of the image plan (src/utils.ts): splitting a
    "media condition + descriptor" entry, and building the class attribute. */
module Conditions {
  import opened Text

  // ---------------------------------------------------------------------
  // splitCondition

  /** A sizes or srcset entry: an optional media condition and what follows it. */
  datatype Condition = Condition(media: Option<string>, descriptor: string)

  /** splitCondition (src/utils.ts:181-187): the media condition ends at the
      last ") " in the text; both halves are trimmed. With no ") " the whole
      text is the descriptor. */
  function SplitCondition(condition: string): (r: Condition)
    ensures r.media.None? <==> !Contains(condition, ") ")
    ensures r.media.None? ==> r.descriptor == condition
    ensures r.media.Some? ==>
      var i := LastIndexOf(condition, ") ");
      && r.media.value == Trim(condition[..i + 1])
      && r.descriptor == Trim(condition[i + 2..])
      && |r.media.value| > 0 && r.media.value[|r.media.value| - 1] == ')'
      && !Contains(r.descriptor, ") ")
  {
    if !Contains(condition, ") ") then Condition(None, condition)
    else
      var i := LastIndexOf(condition, ") ");
      var head, tail := condition[..i + 1], condition[i + 2..];
      ClosesWithParen(head);
      NoLaterOccurrence(condition, i);
      TrimKeepsAbsence(tail, ") ");
      Condition(Some(Trim(head)), Trim(tail))
  }

  /** Trimming a text that ends with ')' keeps that ')' at the end. */
  lemma ClosesWithParen(s: string)
    requires |s| > 0 && s[|s| - 1] == ')'
    ensures |Trim(s)| > 0 && Trim(s)[|Trim(s)| - 1] == ')'
  {
    assert !IsWhite(s[|s| - 1]);
    var t := TrimStart(s);
    assert |t| > 0 && t[|t| - 1] == ')';
  }

  /** Nothing after the last occurrence of ") " holds another one. */
  lemma NoLaterOccurrence(s: string, i: int)
    requires i == LastIndexOf(s, ") ") && i >= 0
    ensures !Contains(s[i + 2..], ") ")
  {
    if Contains(s[i + 2..], ") ") {
      var j :| 0 <= j <= |s[i + 2..]| - 2 && OccursAt(s[i + 2..], ") ", j);
      assert OccursAt(s, s[i + 2..], i + 2);
      OccursWithin(s, s[i + 2..], i + 2, ") ", j);
    }
  }

  /** A trimmed media condition ending in ')' and a trimmed descriptor free of
      ") ", written with one space between them, split back into the two. */
  lemma SplitConditionRoundTrip(media: string, descriptor: string)
    requires |media| > 0 && media[|media| - 1] == ')' && !IsWhite(media[0])
    requires descriptor == [] || (!IsWhite(descriptor[0]) && !IsWhite(descriptor[|descriptor| - 1]))
    requires !Contains(descriptor, ") ")
    ensures SplitCondition(media + " " + descriptor) == Condition(Some(media), descriptor)
  {
    var s := media + " " + descriptor;
    var n := |media|;
    assert s[n - 1..n + 1] == ") ";
    assert OccursAt(s, ") ", n - 1);
    assert Contains(s, ") ");
    NothingAfterMedia(media, descriptor);
    assert LastIndexOf(s, ") ") == n - 1;
    var r := SplitCondition(s);
    assert r.media.value == Trim(s[..n]) && r.descriptor == Trim(s[n + 1..]);
    assert s[..n] == media && s[n + 1..] == descriptor;
    TrimIdentity(media);
    TrimIdentity(descriptor);
    assert r.media == Some(media) && r.descriptor == descriptor;
  }

  /** In `media + " " + descriptor` no ") " starts at or after the space. */
  lemma NothingAfterMedia(media: string, descriptor: string)
    requires !Contains(descriptor, ") ")
    ensures forall j :: j >= |media| ==> !OccursAt(media + " " + descriptor, ") ", j)
  {
    var s := media + " " + descriptor;
    var n := |media|;
    forall j | j >= n ensures !OccursAt(s, ") ", j) {
      if j == n {
        assert s[j] == ' ';
      } else if OccursAt(s, ") ", j) {
        assert s[j..j + 2] == descriptor[j - n - 1..j - n + 1];
        assert OccursAt(descriptor, ") ", j - n - 1);
      }
    }
  }

  // ---------------------------------------------------------------------
  // classBuilder

  /** A class name that is an expression rather than a literal: it starts
      with "d:" or "{". */
  predicate IsDynamic(c: string)
  {
    (|c| >= 2 && c[..2] == "d:") || (|c| >= 1 && c[0] == '{')
  }

  /** The literal class names, in their order. */
  function Statics(classes: seq<string>): (r: seq<string>)
    ensures forall k :: 0 <= k < |r| ==> !IsDynamic(r[k]) && r[k] in classes
    ensures forall c :: c in classes && !IsDynamic(c) ==> c in r
  {
    if |classes| == 0 then []
    else (if IsDynamic(classes[0]) then [] else [classes[0]]) + Statics(classes[1..])
  }

  /** The dynamic class names, in their order. */
  function Dynamics(classes: seq<string>): (r: seq<string>)
    ensures forall k :: 0 <= k < |r| ==> IsDynamic(r[k]) && r[k] in classes
    ensures forall c :: c in classes && IsDynamic(c) ==> c in r
  {
    if |classes| == 0 then []
    else (if IsDynamic(classes[0]) then [classes[0]] else []) + Dynamics(classes[1..])
  }

  /** The two filters split the class list between them: every name lands in
      exactly one, as often as it occurs. */
  lemma {:induction false} Partition(classes: seq<string>)
    ensures multiset(Statics(classes)) + multiset(Dynamics(classes)) == multiset(classes)
  {
    if |classes| > 0 {
      var x, rest := classes[0], classes[1..];
      Partition(rest);
      assert classes == [x] + rest;
      var mine := if IsDynamic(x) then [] else [x];
      var theirs := if IsDynamic(x) then [x] else [];
      assert Statics(classes) == mine + Statics(rest);
      assert Dynamics(classes) == theirs + Dynamics(rest);
      assert multiset(mine) + multiset(theirs) == multiset([x]);
    }
  }

  /** With no dynamic name the literal filter keeps the list as it is. */
  lemma {:induction false} StaticsAll(classes: seq<string>)
    requires forall k :: 0 <= k < |classes| ==> !IsDynamic(classes[k])
    ensures Statics(classes) == classes
  {
    if |classes| > 0 {
      StaticsAll(classes[1..]);
    }
  }

  function Quoted(cs: seq<string>): (r: seq<string>)
    ensures |r| == |cs| && forall k :: 0 <= k < |cs| ==> r[k] == "'" + cs[k] + "'"
  {
    seq(|cs|, k requires 0 <= k < |cs| => "'" + cs[k] + "'")
  }

  /** The dynamic names with every "d:" deleted (`replaceAll('d:', '')`). */
  function Unmarked(cs: seq<string>): (r: seq<string>)
    ensures |r| == |cs| && forall k :: 0 <= k < |cs| ==> r[k] == RemoveAll(cs[k], "d:")
  {
    seq(|cs|, k requires 0 <= k < |cs| => RemoveAll(cs[k], "d:"))
  }

  /** classBuilder (src/utils.ts:162-174): a quoted, space-separated list when
      every class is literal; otherwise a `cn([...])` call over the quoted
      literals followed by the dynamic expressions. */
  function ClassBuilder(classes: seq<string>): (r: string)
    ensures (|r| > 0 && r[0] == '{') <==> exists k :: 0 <= k < |classes| && IsDynamic(classes[k])
    ensures (forall k :: 0 <= k < |classes| ==> !IsDynamic(classes[k])) ==>
      r == "\"" + Join(classes, " ") + "\""
    ensures (exists k :: 0 <= k < |classes| && IsDynamic(classes[k])) ==>
      r == "{cn([" + Join(Quoted(Statics(classes)), ", ") + ", " + Join(Unmarked(Dynamics(classes)), ", ") + "])}"
  {
    var dynamic := Dynamics(classes);
    if |dynamic| > 0 then
      "{cn([" + Join(Quoted(Statics(classes)), ", ") + ", " + Join(Unmarked(dynamic), ", ") + "])}"
    else
      assert forall k :: 0 <= k < |classes| ==> classes[k] in classes;
      StaticsAll(classes);
      "\"" + Join(classes, " ") + "\""
  }

  /** A literal-only class list without spaces inside the names comes back
      from the attribute by splitting at the spaces. */
  lemma ClassListRoundTrip(classes: seq<string>)
    requires |classes| >= 1
    requires forall k :: 0 <= k < |classes| ==> !IsDynamic(classes[k]) && ' ' !in classes[k]
    ensures var r := ClassBuilder(classes);
      |r| >= 2 && Split(r[1..|r| - 1], ' ') == classes
  {
    var r := ClassBuilder(classes);
    assert r[1..|r| - 1] == Join(classes, " ");
    SplitJoin(classes, ' ');
  }

  /** A dynamic expression in braces without "d:" reaches `cn` unchanged. */
  lemma ExpressionUnchanged(c: string)
    requires !Contains(c, "d:")
    ensures RemoveAll(c, "d:") == c
  {
    RemoveAllAbsent(c, "d:");
  }
}
