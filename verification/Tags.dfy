/** Tags stored as one comma-joined string: model.TagsCSV, the split in scanTaskRow, and the tag clause of ListTasks. */
module Tags {
  import opened Prelude
  import opened Text

  // ---------- writing ----------

  /** The trimmed, non-empty tags, each where it first occurs. */
  function CleanTags(tags: seq<string>): seq<string> {
    if tags == [] then []
    else
      var clean, tag := CleanTags(tags[..|tags| - 1]), TrimSpace(tags[|tags| - 1]);
      if tag == "" || tag in clean then clean else clean + [tag]
  }

  method TagsCSV(tags: seq<string>) returns (csv: string)
    ensures csv == Join(CleanTags(tags), ',')
  {
    hide TrimSpace;
    var seen: set<string> := {};
    var clean: seq<string> := [];
    for i := 0 to |tags|
      invariant clean == CleanTags(tags[..i])
      invariant forall t :: t in seen <==> t in clean
    {
      var tag := TrimSpace(tags[i]);
      assert tags[..i + 1][..i] == tags[..i];
      if tag == "" { continue; }
      if tag in seen { continue; }
      seen := seen + {tag};
      clean := clean + [tag];
    }
    assert tags[..|tags|] == tags;
    return Join(clean, ',');
  }

  /** The first position at which a tag occurs, after trimming, or the length if it does not. */
  ghost function FirstIndex(tags: seq<string>, tag: string): nat {
    if tags == [] || TrimSpace(tags[0]) == tag then 0 else 1 + FirstIndex(tags[1..], tag)
  }

  lemma {:induction false} FirstIndexIsFirst(tags: seq<string>, tag: string, i: nat)
    ensures FirstIndex(tags, tag) == i <==>
              && i <= |tags| && (i < |tags| ==> TrimSpace(tags[i]) == tag)
              && forall k | 0 <= k < i :: TrimSpace(tags[k]) != tag
  {
    hide TrimSpace;
    if tags != [] && TrimSpace(tags[0]) != tag && 0 < i {
      FirstIndexIsFirst(tags[1..], tag, i - 1);
      if i <= |tags| && forall k | 0 <= k < i :: TrimSpace(tags[k]) != tag {
        assert forall k | 0 <= k < i - 1 :: tags[1..][k] == tags[k + 1];
      }
      if FirstIndex(tags[1..], tag) == i - 1 {
        assert forall k | 1 <= k < i :: tags[k] == tags[1..][k - 1];
      }
    }
  }

  ghost predicate NoDuplicates<T>(s: seq<T>) {
    forall i, j | 0 <= i < j < |s| :: s[i] != s[j]
  }

  /** CleanTags keeps every trimmed non-empty tag exactly once, trimmed. */
  lemma {:induction false} CleanTagsAre(tags: seq<string>)
    ensures NoDuplicates(CleanTags(tags))
    ensures forall t | t in CleanTags(tags) :: t != "" && Trimmed(t)
    ensures forall t :: t in CleanTags(tags) <==> t != "" && exists i :: 0 <= i < |tags| && TrimSpace(tags[i]) == t
  {
    hide TrimSpace, Trimmed;
    if tags != [] {
      var n := |tags| - 1;
      var init, tag := tags[..n], TrimSpace(tags[n]);
      var clean := CleanTags(init);
      CleanTagsAre(init);
      TrimSpaceTrims(tags[n]);
      forall t ensures t in CleanTags(tags) <==> t != "" && exists i :: 0 <= i < |tags| && TrimSpace(tags[i]) == t {
        if t in clean {
          var i :| 0 <= i < |init| && TrimSpace(init[i]) == t;
          assert tags[i] == init[i];
        }
        if i :| 0 <= i < |tags| && TrimSpace(tags[i]) == t {
          assert i < n ==> init[i] == tags[i];
        }
      }
    }
  }

  /** The clean tags come in the order in which they first occur. */
  lemma {:induction false} CleanTagsOrder(tags: seq<string>, i: nat, j: nat)
    requires i < j < |CleanTags(tags)|
    ensures FirstIndex(tags, CleanTags(tags)[i]) < FirstIndex(tags, CleanTags(tags)[j])
  {
    hide TrimSpace, FirstIndex, Trimmed;
    var n := |tags| - 1;
    var init, tag := tags[..n], TrimSpace(tags[n]);
    var clean := CleanTags(init);
    CleanTagsAre(init);
    assert clean[i] in clean && (j < |clean| ==> clean[j] in clean);
    SameFirstIndex(tags, n, clean[i]);
    if j < |clean| {
      SameFirstIndex(tags, n, clean[j]);
      CleanTagsOrder(init, i, j);
    } else {
      var k := FirstIndex(tags, tag);
      FirstIndexIsFirst(tags, tag, k);
      assert forall q | 0 <= q < n :: tags[q] == init[q] && TrimSpace(init[q]) != tag;
    }
  }

  lemma SameFirstIndex(tags: seq<string>, n: nat, tag: string)
    requires n < |tags| && exists i :: 0 <= i < n && TrimSpace(tags[..n][i]) == tag
    ensures FirstIndex(tags, tag) == FirstIndex(tags[..n], tag) < n
  {
    hide TrimSpace, FirstIndex;
    var k := FirstIndex(tags[..n], tag);
    FirstIndexIsFirst(tags[..n], tag, k);
    assert forall i | 0 <= i < n :: tags[..n][i] == tags[i];
    FirstIndexIsFirst(tags, tag, k);
  }

  // ---------- reading ----------

  /** The tags scanTaskRow gives a task. */
  function TagsOf(csv: string): seq<string> {
    if csv == "" then [] else Split(csv, ',')
  }

  ghost predicate CommaFree(tags: seq<string>) {
    forall t | t in tags :: ',' !in t
  }

  lemma CleanTagsCommaFree(tags: seq<string>)
    requires CommaFree(tags)
    ensures CommaFree(CleanTags(tags))
  {
    CleanTagsAre(tags);
    forall t | t in CleanTags(tags) ensures ',' !in t {
      var i :| 0 <= i < |tags| && TrimSpace(tags[i]) == t;
      TrimSpaceTrims(tags[i]);
      assert tags[i] in tags;
    }
  }

  lemma {:induction false} JoinIsEmpty(parts: seq<string>)
    requires forall p | p in parts :: p != ""
    ensures Join(parts, ',') == "" <==> parts == []
  {
    if parts != [] { assert parts[0] in parts; }
  }

  /** What was written reads back as the clean tags if and only if no tag has a comma. */
  lemma WriteThenRead(tags: seq<string>)
    ensures TagsOf(Join(CleanTags(tags), ',')) == CleanTags(tags) <==> CommaFree(tags)
  {
    hide CleanTags;
    CleanTagsAre(tags);
    if CommaFree(tags) {
      CleanTagsCommaFree(tags);
      JoinIsEmpty(CleanTags(tags));
      if CleanTags(tags) != [] {
        SplitJoin(CleanTags(tags), ',');
      }
    } else {
      var i :| 0 <= i < |tags| && ',' in tags[i];
      TrimSpaceKeeps(tags[i], ',');
      assert TrimSpace(tags[i]) in CleanTags(tags);
      SplitIsFree(Join(CleanTags(tags), ','), ',');
    }
  }

  /** Every part is trimmed and non-empty, and occurs once. */
  ghost predicate AreClean(parts: seq<string>) {
    NoDuplicates(parts) && forall p | p in parts :: p != "" && Trimmed(p)
  }

  lemma {:induction false} CleanIsStable(tags: seq<string>)
    requires AreClean(tags)
    ensures CleanTags(tags) == tags
  {
    if tags != [] {
      var init, last := tags[..|tags| - 1], tags[|tags| - 1];
      assert tags == init + [last];
      assert last in tags && last !in init && forall t | t in init :: t in tags;
      TrimSpaceTrims(last);
      hide TrimSpace, Trimmed;
      CleanIsStable(init);
    }
  }

  /** Loading a task and writing it back leaves the column unchanged if and only if its parts are clean. */
  lemma RewriteIff(csv: string)
    ensures Join(CleanTags(TagsOf(csv)), ',') == csv <==> AreClean(TagsOf(csv))
  {
    hide CleanTags, AreClean, Split;
    var parts := TagsOf(csv);
    CleanTagsAreClean(parts);
    NothingIsClean();
    if AreClean(parts) {
      CleanIsStable(parts);
      JoinSplit(csv, ',');
    } else {
      SplitIsFree(csv, ',');
      CleanTagsCommaFree(parts);
      if CleanTags(parts) != [] {
        SplitJoin(CleanTags(parts), ',');
      }
    }
  }

  lemma NothingIsClean()
    ensures AreClean([])
  {
  }

  lemma CleanTagsAreClean(tags: seq<string>)
    ensures AreClean(CleanTags(tags))
  {
    hide CleanTags, Trimmed;
    CleanTagsAre(tags);
  }

  /** That is always so for a column written from comma-free tags. */
  lemma RewriteOfWritten(tags: seq<string>)
    requires CommaFree(tags)
    ensures var csv := Join(CleanTags(tags), ','); Join(CleanTags(TagsOf(csv)), ',') == csv
  {
    hide CleanTags, AreClean;
    WriteThenRead(tags);
    CleanTagsAreClean(tags);
    RewriteIff(Join(CleanTags(tags), ','));
  }

  /** A tag with a comma inside is stored as it is and comes back as two, so the second write differs. */
  lemma CommaTagIsNotStable()
    ensures var csv := Join(CleanTags(["a, b"]), ',');
            csv == "a, b" && TagsOf(csv) == ["a", " b"] && Join(CleanTags(TagsOf(csv)), ',') == "a,b"
  {
    hide TrimSpace, Split, CleanTags;
    assert ["a, b"][0] == "a, b" && Trimmed("a, b");
    CleanIsStable(["a, b"]);
    SplitOfFree(" b", ',');
    SplitAppend("a", ',', " b");
    assert "a, b" == "a" + [','] + " b";
    assert TrimSpace("a") == "a" by { TrimSpaceTrims("a"); }
    assert TrimSpace(" b") == "b" by {
      LeadingSpace("b");
      assert " b" == " " + "b";
    }
    CleanTwo("a", " b");
  }

  lemma LeadingSpace(s: string)
    requires s != "" && Trimmed(s)
    ensures TrimSpace(" " + s) == s && " " + s == [' '] + s
  {
    assert (" " + s)[0] == ' ' && (" " + s)[1..] == s;
    assert TrimLeft(" " + s) == TrimLeft(s);
    TrimSpaceTrims(s);
  }

  lemma CleanTwo(a: string, b: string)
    requires TrimSpace(a) != "" && TrimSpace(b) != "" && TrimSpace(a) != TrimSpace(b)
    ensures CleanTags([a, b]) == [TrimSpace(a), TrimSpace(b)]
  {
    hide TrimSpace;
    assert [a, b][..1] == [a] && [a][..0] == [];
    assert CleanTags([a]) == [TrimSpace(a)];
  }

  // ---------- cleanTag of the scheduler ----------

  /** The first k characters and the last k form pairs, from the outside in, that each have a space. */
  ghost predicate Peels(t: string, k: nat) {
    2 * k <= |t| && forall i | 0 <= i < k :: t[i] == ' ' || t[|t| - 1 - i] == ' '
  }

  /** The peeling arrives at a single space, from which both ends cannot be sliced off. */
  ghost predicate PeelsToOneSpace(t: string) {
    |t| % 2 == 1 && Peels(t, |t| / 2) && t[|t| / 2] == ' '
  }

  /** cleanTag slices off both ends at once; None is its run-time panic. */
  method CleanTag(t: string) returns (r: Option<string>)
    ensures r.None? <==> PeelsToOneSpace(t)
    ensures r.None? <==> |t| % 2 == 1 && forall i | 0 <= 2 * i < |t| :: t[i] == ' ' || t[|t| - 1 - i] == ' '
    ensures r.Some? ==> exists k: nat :: 2 * k <= |t| && r.value == t[k..|t| - k]
                                         && forall i | 0 <= i < k :: t[i] == ' ' || t[|t| - 1 - i] == ' '
    ensures r.Some? && r.value != "" ==> r.value[0] != ' ' && r.value[|r.value| - 1] != ' '
  {
    var s := t;
    ghost var k: nat := 0;
    while |s| > 0 && (s[0] == ' ' || s[|s| - 1] == ' ')
      invariant Peels(t, k) && s == t[k..|t| - k]
      decreases |s|
    {
      if |s| == 1 {
        return None;
      }
      assert s[1..|s| - 1] == t[k + 1..|t| - (k + 1)];
      s := s[1..|s| - 1];
      k := k + 1;
    }
    return Some(s);
  }

  /** The loop of ScheduleNew over the tags: the names it passes to CreateTag; None if it panics. */
  method CleanEach(tags: seq<string>) returns (names: Option<seq<string>>)
    ensures names.None? <==> exists t :: t in tags && PeelsToOneSpace(t)
    ensures names.Some? ==> "" !in names.value
  {
    var out: seq<string> := [];
    for i := 0 to |tags|
      invariant "" !in out && forall j | 0 <= j < i :: !PeelsToOneSpace(tags[j])
    {
      var name := CleanTag(tags[i]);
      if name.None? {
        assert tags[i] in tags;
        return None;
      }
      if name.value != "" {
        out := out + [name.value];
      }
    }
    return Some(out);
  }

  // ---------- the tag clause of ListTasks ----------

  /** SQLite's LIKE folds the case of ASCII letters only. */
  function Fold(c: char): char {
    if 'A' <= c <= 'Z' then c + 32 as char else c
  }

  predicate SameFold(a: string, b: string) {
    |a| == |b| && forall i | 0 <= i < |a| :: Fold(a[i]) == Fold(b[i])
  }

  /** text LIKE pattern */
  predicate Like(text: string, pattern: string)
    decreases |text| + |pattern|
  {
    if pattern == "" then text == ""
    else if pattern[0] == '%' then Like(text, pattern[1..]) || (text != "" && Like(text[1..], pattern))
    else text != "" && (pattern[0] == '_' || Fold(text[0]) == Fold(pattern[0])) && Like(text[1..], pattern[1..])
  }

  /** (tags=? OR tags LIKE ? OR tags LIKE ? OR tags LIKE ?) with the arguments ListTasks binds. */
  predicate TagClause(csv: string, tag: string) {
    csv == tag || Like(csv, tag + ",%") || Like(csv, "%," + tag) || Like(csv, "%," + tag + ",%")
  }

  predicate PlainTag(tag: string) {
    ',' !in tag && '%' !in tag && '_' !in tag
  }

  lemma LikePercent(text: string, rest: string)
    ensures Like(text, "%" + rest) <==> Like(text, rest) || (text != "" && Like(text[1..], "%" + rest))
  {
    assert ("%" + rest)[1..] == rest;
  }

  lemma LikeChar(text: string, c: char, rest: string)
    requires c != '%' && c != '_'
    ensures Like(text, [c] + rest) <==> text != "" && Fold(text[0]) == Fold(c) && Like(text[1..], rest)
  {
    assert ([c] + rest)[1..] == rest;
  }

  /** What each character of a pattern stands for: a percent sign for any text, an underscore for any one character, an
      ASCII letter for that letter in either case, anything else for itself. */
  lemma LikeMeaning(text: string, c: char, rest: string)
    ensures Like(text, "") <==> text == ""
    ensures Like(text, "%" + rest) <==> exists k :: 0 <= k <= |text| && Like(text[k..], rest)
    ensures Like(text, "_" + rest) <==> text != "" && Like(text[1..], rest)
    ensures c != '%' && c != '_' ==>
              (Like(text, [c] + rest) <==>
                && text != "" && Like(text[1..], rest)
                && (|| text[0] == c || ('A' <= c <= 'Z' && text[0] as int == c as int + 32)
                    || ('a' <= c <= 'z' && text[0] as int == c as int - 32)))
  {
    assert ("_" + rest)[1..] == rest;
    PercentIsAnyText(text, rest);
    if c != '%' && c != '_' {
      LikeChar(text, c, rest);
    }
  }

  lemma {:induction false} PercentIsAnyText(text: string, rest: string)
    ensures Like(text, "%" + rest) <==> exists k :: 0 <= k <= |text| && Like(text[k..], rest)
    decreases |text|
  {
    LikePercent(text, rest);
    assert text[0..] == text;
    if text != "" {
      PercentIsAnyText(text[1..], rest);
      assert forall k | 0 <= k <= |text| - 1 :: text[1..][k..] == text[k + 1..];
      assert forall k | 1 <= k <= |text| :: text[k..] == text[1..][k - 1..];
    }
  }

  lemma {:induction false} LikePlain(text: string, tag: string)
    requires PlainTag(tag)
    ensures Like(text, tag) <==> SameFold(text, tag)
    decreases |tag|
  {
    hide SameFold;
    if tag == "" || text == "" {
      EmptyFold(text, tag);
    } else {
      assert tag == [tag[0]] + tag[1..];
      LikePlain(text[1..], tag[1..]);
      FoldStep(text, tag);
    }
  }

  lemma EmptyFold(a: string, b: string)
    requires a == "" || b == ""
    ensures SameFold(a, b) <==> a == b
  {
  }

  lemma FoldStep(a: string, b: string)
    requires a != "" && b != ""
    ensures SameFold(a, b) <==> Fold(a[0]) == Fold(b[0]) && SameFold(a[1..], b[1..])
  {
    assert a == [a[0]] + a[1..] && b == [b[0]] + b[1..];
  }

  lemma {:induction false} LikeAnything(text: string)
    ensures Like(text, "%")
  {
    if text != "" { LikeAnything(text[1..]); }
  }

  /** The text starts with the tag, up to case, and then ends or has a comma. */
  ghost predicate StartsWithTag(text: string, tag: string) {
    SameFold(text, tag) || Like(text, tag + ",%")
  }

  /** The text contains a comma, then the tag, up to case, and then the end or a comma. */
  ghost predicate ContainsTag(text: string, tag: string) {
    Like(text, "%," + tag) || Like(text, "%," + tag + ",%")
  }

  lemma CommaThenAnything(text: string)
    ensures Like(text, ",%") <==> text != "" && text[0] == ','
  {
    hide Like;
    assert ",%" == [','] + "%";
    LikeChar(text, ',', "%");
    if text != "" { LikeAnything(text[1..]); }
  }

  lemma TagThenComma(text: string, tag: string)
    requires PlainTag(tag) && tag != ""
    ensures Like(text, tag + ",%") <==> text != "" && Fold(text[0]) == Fold(tag[0]) && Like(text[1..], tag[1..] + ",%")
  {
    hide Like;
    assert tag + ",%" == [tag[0]] + (tag[1..] + ",%");
    assert tag[0] in tag;
    LikeChar(text, tag[0], tag[1..] + ",%");
  }

  lemma StartsStep(text: string, tag: string)
    requires PlainTag(tag) && text != ""
    ensures tag == "" ==> (StartsWithTag(text, tag) <==> text[0] == ',')
    ensures tag != "" ==>
              (StartsWithTag(text, tag) <==> Fold(text[0]) == Fold(tag[0]) && StartsWithTag(text[1..], tag[1..]))
  {
    hide Like, SameFold;
    if tag == "" {
      EmptyFold(text, tag);
      assert tag + ",%" == ",%";
      CommaThenAnything(text);
    } else {
      TagThenComma(text, tag);
      FoldStep(text, tag);
    }
  }

  /** The first part is the tag, up to case, exactly when the text starts with the tag. */
  lemma {:induction false} FirstPart(text: string, tag: string)
    requires PlainTag(tag)
    ensures StartsWithTag(text, tag) <==> SameFold(Split(text, ',')[0], tag)
    decreases |text|
  {
    if text == "" {
      EmptyStarts(tag);
    } else {
      hide StartsWithTag, SameFold;
      StartsStep(text, tag);
      if tag == "" {
        EmptyFold(Split(text, ',')[0], tag);
      } else {
        assert tag[0] in tag && PlainTag(tag[1..]);
        FirstPart(text[1..], tag[1..]);
        FirstPartStep(text, tag);
      }
    }
  }

  lemma EmptyStarts(tag: string)
    requires PlainTag(tag)
    ensures StartsWithTag("", tag) <==> SameFold("", tag)
  {
    if tag == "" {
      assert tag + ",%" == ",%";
    } else {
      TagThenComma("", tag);
    }
  }

  lemma FirstPartStep(text: string, tag: string)
    requires text != "" && tag != "" && ',' != tag[0]
    ensures SameFold(Split(text, ',')[0], tag)
            <==> Fold(text[0]) == Fold(tag[0]) && SameFold(Split(text[1..], ',')[0], tag[1..])
  {
    hide SameFold;
    var first := Split(text, ',')[0];
    if text[0] == ',' {
      EmptyFold(first, tag);
    } else {
      FoldStep(first, tag);
      assert first[1..] == Split(text[1..], ',')[0];
    }
  }

  /** One of the parts from the given one on is the tag, up to case. */
  ghost predicate HasPart(parts: seq<string>, first: nat, tag: string) {
    exists j :: first <= j < |parts| && SameFold(parts[j], tag)
  }

  lemma ContainsStep(text: string, tag: string)
    requires PlainTag(tag)
    ensures ContainsTag(text, tag)
            <==> text != "" && ((text[0] == ',' && StartsWithTag(text[1..], tag)) || ContainsTag(text[1..], tag))
  {
    var q1, q2 := "," + tag, "," + tag + ",%";
    assert "%," + tag == "%" + q1 && "%," + tag + ",%" == "%" + q2;
    assert q1 == [','] + tag && q2 == [','] + (tag + ",%");
    hide Like, SameFold;
    LikePercent(text, q1);
    LikePercent(text, q2);
    LikeChar(text, ',', tag);
    LikeChar(text, ',', tag + ",%");
    if text != "" { LikePlain(text[1..], tag); }
  }

  lemma SplitStep(text: string)
    requires text != ""
    ensures var rest := Split(text[1..], ',');
            Split(text, ',') == if text[0] == ',' then [""] + rest else [[text[0]] + rest[0]] + rest[1..]
  {
  }

  /** Putting a part in front, or changing the first part. */
  lemma HasPartAfter(first: string, parts: seq<string>, tag: string)
    ensures HasPart([first] + parts, 1, tag) <==> HasPart(parts, 0, tag)
  {
    hide SameFold;
    var all := [first] + parts;
    if HasPart(all, 1, tag) {
      var j :| 1 <= j < |all| && SameFold(all[j], tag);
      assert SameFold(parts[j - 1], tag);
    }
    if HasPart(parts, 0, tag) {
      var j :| 0 <= j < |parts| && SameFold(parts[j], tag);
      assert SameFold(all[j + 1], tag);
    }
  }

  lemma PartsStep(text: string, tag: string)
    requires text != ""
    ensures HasPart(Split(text, ','), 1, tag)
            <==> (text[0] == ',' && SameFold(Split(text[1..], ',')[0], tag)) || HasPart(Split(text[1..], ','), 1, tag)
  {
    var rest := Split(text[1..], ',');
    SplitStep(text);
    hide SameFold, Split;
    if text[0] == ',' {
      HasPartAfter("", rest, tag);
      assert HasPart(rest, 0, tag) <==> SameFold(rest[0], tag) || HasPart(rest, 1, tag);
    } else {
      HasPartAfter([text[0]] + rest[0], rest[1..], tag);
      HasPartAfter(rest[0], rest[1..], tag);
      assert [rest[0]] + rest[1..] == rest;
    }
  }

  /** A later part is the tag, up to case, exactly when the text contains a comma, the tag, and a comma or the end. */
  lemma {:induction false} LaterPart(text: string, tag: string)
    requires PlainTag(tag)
    ensures ContainsTag(text, tag) <==> HasPart(Split(text, ','), 1, tag)
    decreases |text|
  {
    hide ContainsTag, StartsWithTag, HasPart, SameFold, Split;
    ContainsStep(text, tag);
    if text == "" {
      NoLaterPart(tag);
    } else {
      PartsStep(text, tag);
      FirstPart(text[1..], tag);
      LaterPart(text[1..], tag);
    }
  }

  lemma NoLaterPart(tag: string)
    ensures !HasPart(Split("", ','), 1, tag)
  {
  }

  /** Text that starts with the tag and goes on has a comma after it. */
  lemma StartsAndGoesOn(text: string, tag: string)
    requires PlainTag(tag)
    ensures Like(text, tag + ",%") ==> |Split(text, ',')| >= 2
    decreases |text|
  {
    hide Like;
    if tag == "" {
      assert tag + ",%" == ",%";
      CommaThenAnything(text);
    } else {
      TagThenComma(text, tag);
      if text != "" {
        assert PlainTag(tag[1..]);
        StartsAndGoesOn(text[1..], tag[1..]);
      }
    }
  }

  /** The exact meaning of the clause for a tag without comma and wildcards: the column is the tag, or it has several
      parts and one of them is the tag up to the case of ASCII letters. */
  lemma TagClauseMeaning(csv: string, tag: string)
    requires PlainTag(tag)
    ensures TagClause(csv, tag) <==> csv == tag || (|Split(csv, ',')| >= 2 && HasPart(Split(csv, ','), 0, tag))
  {
    var parts := Split(csv, ',');
    hide Split, Like, SameFold;
    FirstPart(csv, tag);
    LaterPart(csv, tag);
    StartsAndGoesOn(csv, tag);
    if SameFold(csv, tag) {
      FoldKeepsCommas(csv, tag);
      SplitOfFree(csv, ',');
    }
    if HasPart(parts, 0, tag) {
      var j :| 0 <= j < |parts| && SameFold(parts[j], tag);
      assert j == 0 || HasPart(parts, 1, tag);
    }
    if HasPart(parts, 1, tag) {
      var j :| 1 <= j < |parts| && SameFold(parts[j], tag);
      assert HasPart(parts, 0, tag);
    }
  }

  lemma FoldKeepsCommas(a: string, b: string)
    requires SameFold(a, b) && ',' !in b
    ensures ',' !in a
  {
    forall i | 0 <= i < |a| ensures a[i] != ',' { assert b[i] in b; }
  }

  predicate NoUpperCase(s: string) {
    forall c | c in s :: !('A' <= c <= 'Z')
  }

  /** Where folding case identifies the tag with no other part, the meaning of the clause is membership. */
  lemma MembershipFromMeaning(csv: string, tag: string)
    requires PlainTag(tag) && tag != "" && forall e | e in Split(csv, ',') :: SameFold(e, tag) <==> e == tag
    ensures csv == tag || (|Split(csv, ',')| >= 2 && HasPart(Split(csv, ','), 0, tag)) <==> tag in TagsOf(csv)
  {
    hide SameFold, Split;
    var parts := Split(csv, ',');
    JoinSplit(csv, ',');
    if |parts| == 1 {
      assert parts == [csv];
    }
    if csv == tag { SplitOfFree(csv, ','); }
    if tag in parts {
      var j :| 0 <= j < |parts| && parts[j] == tag;
      assert SameFold(parts[j], tag);
    }
  }

  /** With all text in lower case the clause is list membership. */
  lemma TagClauseIsMembership(csv: string, tag: string)
    requires PlainTag(tag) && tag != "" && NoUpperCase(csv) && NoUpperCase(tag)
    ensures TagClause(csv, tag) <==> tag in TagsOf(csv)
  {
    hide TagClause;
    TagClauseMeaning(csv, tag);
    forall e | e in Split(csv, ',') ensures SameFold(e, tag) <==> e == tag {
      PartCharacters(csv, e);
      if SameFold(e, tag) {
        forall i | 0 <= i < |e| ensures e[i] == tag[i] { assert e[i] in e && tag[i] in tag; }
      }
    }
    MembershipFromMeaning(csv, tag);
  }

  lemma {:induction false} PartCharacters(s: string, part: string)
    requires part in Split(s, ',')
    ensures forall c | c in part :: c in s
    decreases |s|
  {
    if s != "" {
      var rest := Split(s[1..], ',');
      if part in rest {
        PartCharacters(s[1..], part);
      } else if s[0] != ',' {
        PartCharacters(s[1..], rest[0]);
      }
    }
  }

  /** The tag with an x for each wildcard. */
  function WithoutWildcards(tag: string): (e: string)
    ensures |e| == |tag| && forall i | 0 <= i < |tag| :: e[i] == if tag[i] == '%' || tag[i] == '_' then 'x' else tag[i]
  {
    if tag == "" then ""
    else [if tag[0] == '%' || tag[0] == '_' then 'x' else tag[0]] + WithoutWildcards(tag[1..])
  }

  lemma {:induction false} WildcardsMatch(tag: string, text: string, pattern: string)
    requires Like(text, pattern)
    ensures Like(WithoutWildcards(tag) + text, tag + pattern)
  {
    var e := WithoutWildcards(tag);
    if tag == "" {
      assert e + text == text && tag + pattern == pattern;
    } else {
      WildcardsMatch(tag[1..], text, pattern);
      assert (e + text)[1..] == WithoutWildcards(tag[1..]) + text && (tag + pattern)[1..] == tag[1..] + pattern;
    }
  }

  /** A column of two parts, the second empty, whose first part matches the tag. */
  lemma ListOfOther(e: string, tag: string)
    requires ',' !in e && tag != e && tag != ""
    ensures tag !in TagsOf(e + ",")
    ensures Split(e + ",", ',') == [e, ""]
  {
    SplitAppend(e, ',', "");
    assert e + [','] + "" == e + ",";
  }

  /** A tag with a comma is never in a list, but equals the column that is the tag. */
  lemma CommaBreaksMembership(tag: string)
    requires ',' in tag
    ensures TagClause(tag, tag) && tag !in TagsOf(tag)
  {
    hide Split;
    SplitIsFree(tag, ',');
  }

  /** A tag with a wildcard matches a column in which the wildcard is replaced by a letter. */
  lemma WildcardBreaksMembership(tag: string)
    requires ',' !in tag && ('%' in tag || '_' in tag)
    ensures var csv := WithoutWildcards(tag) + ","; TagClause(csv, tag) && tag !in TagsOf(csv)
  {
    hide Like, Split;
    var e := WithoutWildcards(tag);
    CommaThenAnything(",");
    WildcardsMatch(tag, ",", ",%");
    assert e != tag by {
      var i :| 0 <= i < |tag| && (tag[i] == '%' || tag[i] == '_');
      assert e[i] == 'x';
    }
    ListOfOther(e, tag);
  }

  /** The tags whose clause is list membership for every column in lower case are exactly those without comma and
      wildcards. */
  lemma MembershipIff(tag: string)
    requires tag != "" && NoUpperCase(tag)
    ensures (forall csv | NoUpperCase(csv) :: TagClause(csv, tag) <==> tag in TagsOf(csv)) <==> PlainTag(tag)
  {
    hide TagClause, TagsOf, NoUpperCase;
    if PlainTag(tag) {
      forall csv | NoUpperCase(csv) ensures TagClause(csv, tag) <==> tag in TagsOf(csv) {
        TagClauseIsMembership(csv, tag);
      }
    } else if ',' in tag {
      CommaBreaksMembership(tag);
    } else {
      WildcardBreaksMembership(tag);
      NoNewUpperCase(tag);
    }
  }

  lemma NoNewUpperCase(tag: string)
    requires NoUpperCase(tag)
    ensures NoUpperCase(WithoutWildcards(tag) + ",")
  {
    var e := WithoutWildcards(tag);
    forall c | c in e + "," ensures !('A' <= c <= 'Z') {
      if c in e {
        var i :| 0 <= i < |e| && e[i] == c;
        assert tag[i] in tag;
      }
    }
  }

  predicate IsLetter(c: char) {
    'A' <= c <= 'Z' || 'a' <= c <= 'z'
  }

  function SwapCase(s: string): (r: string)
    ensures |r| == |s| && forall i | 0 <= i < |s| :: r[i] == Swapped(s[i])
  {
    if s == "" then "" else [Swapped(s[0])] + SwapCase(s[1..])
  }

  function Swapped(c: char): char {
    if 'A' <= c <= 'Z' then c + 32 as char else if 'a' <= c <= 'z' then c - 32 as char else c
  }

  /** For columns in any case they are exactly those that have no ASCII letter either: LIKE folds case, the list does
      not. */
  lemma AnyCaseMembershipIff(tag: string)
    requires tag != ""
    ensures (forall csv :: TagClause(csv, tag) <==> tag in TagsOf(csv))
            <==> PlainTag(tag) && forall c | c in tag :: !IsLetter(c)
  {
    hide TagClause, TagsOf, IsLetter;
    if ',' in tag {
      CommaBreaksMembership(tag);
    } else if '%' in tag || '_' in tag {
      WildcardBreaksMembership(tag);
    } else if c :| c in tag && IsLetter(c) {
      LetterBreaksMembership(tag, c);
    } else {
      forall csv ensures TagClause(csv, tag) <==> tag in TagsOf(csv) {
        UnfoldedMembership(csv, tag);
      }
    }
  }

  lemma LetterBreaksMembership(tag: string, c: char)
    requires PlainTag(tag) && c in tag && IsLetter(c)
    ensures var csv := SwapCase(tag) + ","; TagClause(csv, tag) && tag !in TagsOf(csv)
  {
    var e := SwapCase(tag);
    var i :| 0 <= i < |tag| && tag[i] == c;
    assert e[i] != tag[i];
    assert ',' !in e by { forall k | 0 <= k < |e| ensures e[k] != ',' { assert tag[k] in tag; } }
    ListOfOther(e, tag);
    TagClauseMeaning(e + ",", tag);
    assert SameFold(Split(e + ",", ',')[0], tag);
  }

  lemma UnfoldedMembership(csv: string, tag: string)
    requires PlainTag(tag) && tag != "" && forall c | c in tag :: !IsLetter(c)
    ensures TagClause(csv, tag) <==> tag in TagsOf(csv)
  {
    TagClauseMeaning(csv, tag);
    hide TagClause;
    forall e: string ensures SameFold(e, tag) <==> e == tag {
      if SameFold(e, tag) {
        forall i | 0 <= i < |e| ensures e[i] == tag[i] { assert tag[i] in tag; }
      }
    }
    MembershipFromMeaning(csv, tag);
  }

  /** A wildcard in a tag matches more than the tag. */
  lemma WildcardOvermatches()
    ensures TagClause("ab,c", "a_") && "a_" !in TagsOf("ab,c")
  {
    PartsOfExample();
    assert "a_" + ",%" == "a_,%" && "ab,c"[1..] == "b,c" && "b,c"[1..] == ",c" && ",c"[1..] == "c";
    assert "a_,%"[1..] == "_,%" && "_,%"[1..] == ",%" && ",%"[1..] == "%";
    LikeAnything("c");
    assert Like(",c", ",%");
    assert Like("b,c", "_,%");
  }

  lemma PartsOfExample()
    ensures Split("ab,c", ',') == ["ab", "c"]
  {
    SplitOfFree("c", ',');
    SplitAppend("ab", ',', "c");
    assert "ab,c" == "ab" + [','] + "c";
  }

  /** A tag in capitals finds the lower-case tag in a list, but not in a column that holds nothing else. */
  lemma CapitalsMatchListsOnly()
    ensures TagClause("ab,c", "AB") && !TagClause("ab", "AB")
  {
    hide TagClause;
    PartsOfExample();
    SplitOfFree("ab", ',');
    TagClauseMeaning("ab,c", "AB");
    TagClauseMeaning("ab", "AB");
    assert "ab" in Split("ab,c", ',') && SameFold("ab", "AB");
  }
}
