/** NormalizeTags (internal/model/tags.go), for any folding of case. */
module Tags {
  import opened Base
  import opened Forest

  const MAX_TAG_LENGTH := 30
  const MAX_TAGS := 20

  /** unicode.IsSpace. */
  predicate IsSpace(c: char) {
    c == '\t' || c == '\n' || c == '\U{B}' || c == '\U{C}' || c == '\r' || c == ' ' || c == '\U{85}' || c == '\U{A0}'
    || c == '\U{1680}' || '\U{2000}' <= c <= '\U{200A}' || c == '\U{2028}' || c == '\U{2029}' || c == '\U{202F}'
    || c == '\U{205F}' || c == '\U{3000}'
  }

  function TrimLeft(s: string): string {
    if |s| > 0 && IsSpace(s[0]) then TrimLeft(s[1..]) else s
  }

  function TrimRight(s: string): string {
    if |s| > 0 && IsSpace(s[|s| - 1]) then TrimRight(s[..|s| - 1]) else s
  }

  function TrimSpace(s: string): string {
    TrimRight(TrimLeft(s))
  }

  /** Folding twice is folding once. */
  ghost predicate FoldsCase(f: char -> char) {
    forall c :: f(f(c)) == f(c)
  }

  function AsciiLower(c: char): char {
    if 'A' <= c <= 'Z' then (c as int + 32) as char else c
  }

  /** unicode.ToLower, of which only this much is used. */
  type Fold = f: char -> char | FoldsCase(f) witness AsciiLower

  /** strings.ToLower. */
  function ToLower(s: string, lower: Fold): (r: string)
    ensures |r| == |s| && forall i :: 0 <= i < |s| ==> r[i] == lower(s[i])
  {
    seq(|s|, i requires 0 <= i < |s| => lower(s[i]))
  }

  function CleanTag(raw: string, lower: Fold): string {
    ToLower(TrimSpace(raw), lower)
  }

  predicate Malformed(tag: string) {
    || (exists i :: 0 <= i < |tag| && (tag[i] == ',' || tag[i] == '#' || IsSpace(tag[i])))
    || |tag| > MAX_TAG_LENGTH
  }

  /** The distinct cleaned tags of the input in order of first occurrence, those in
      seen left out; None as soon as one is malformed. */
  function Collect(raw: seq<string>, seen: set<string>, lower: Fold): Option<seq<string>> {
    if |raw| == 0 then Some([])
    else
      var tag := CleanTag(raw[0], lower);
      if tag == "" then Collect(raw[1..], seen, lower)
      else if Malformed(tag) then None
      else if tag in seen then Collect(raw[1..], seen, lower)
      else match Collect(raw[1..], seen + {tag}, lower)
        case Some(rest) => Some([tag] + rest)
        case None => None
  }

  /** None is the source's error result. */
  function Normalized(raw: seq<string>, lower: Fold): Option<seq<string>> {
    match Collect(raw, {}, lower)
    case Some(out) => if |out| > MAX_TAGS then None else Some(out)
    case None => None
  }

  function PrependTags(out: seq<string>, rest: Option<seq<string>>): Option<seq<string>> {
    match rest
    case Some(s) => Some(out + s)
    case None => None
  }

  method NormalizeTags(raw: seq<string>, lower: Fold) returns (res: Option<seq<string>>)
    ensures res == Normalized(raw, lower)
  {
    var out: seq<string> := [];
    var seen: set<string> := {};
    assert raw[0..] == raw;
    if Collect(raw, {}, lower).Some? { assert [] + Collect(raw, {}, lower).value == Collect(raw, {}, lower).value; }
    hide CleanTag, Malformed, Collect;
    for k := 0 to |raw|
      invariant Collect(raw, {}, lower) == PrependTags(out, Collect(raw[k..], seen, lower))
    {
      var tag := CleanTag(raw[k], lower);
      assert raw[k..][0] == raw[k] && raw[k..][1..] == raw[k + 1..];
      CollectStep(out, raw[k..], seen, lower);
      if tag == "" {
        continue;
      }
      if Malformed(tag) {
        return None;
      }
      if tag in seen {
        continue;
      }
      seen := seen + {tag};
      out := out + [tag];
    }
    assert raw[|raw|..] == [];
    CollectEnd(out, seen, lower);
    if |out| > MAX_TAGS {
      return None;
    }
    return Some(out);
  }

  lemma CollectStep(out: seq<string>, raw: seq<string>, seen: set<string>, lower: Fold)
    requires |raw| > 0
    ensures var tag := CleanTag(raw[0], lower);
            PrependTags(out, Collect(raw, seen, lower)) ==
            if tag == "" then PrependTags(out, Collect(raw[1..], seen, lower))
            else if Malformed(tag) then None
            else if tag in seen then PrependTags(out, Collect(raw[1..], seen, lower))
            else PrependTags(out + [tag], Collect(raw[1..], seen + {tag}, lower))
  {
    hide CleanTag, Malformed;
    var tag := CleanTag(raw[0], lower);
    var rest := Collect(raw[1..], seen + {tag}, lower);
    if rest.Some? { assert out + ([tag] + rest.value) == (out + [tag]) + rest.value; }
  }

  lemma CollectEnd(out: seq<string>, seen: set<string>, lower: Fold)
    ensures PrependTags(out, Collect([], seen, lower)) == Some(out)
  {
    assert out + [] == out;
  }

  // ---- what normalising promises ----

  /** Trimmed, lower-cased, non-empty and well-formed. */
  predicate WellFormed(tag: string, lower: Fold) {
    tag != "" && !Malformed(tag) && CleanTag(tag, lower) == tag
  }

  lemma NothingToTrim(s: string)
    requires forall i :: 0 <= i < |s| ==> !IsSpace(s[i])
    ensures TrimSpace(s) == s
  {
  }

  lemma CleanIsStable(raw: string, lower: Fold)
    requires CleanTag(raw, lower) != "" && !Malformed(CleanTag(raw, lower))
    ensures WellFormed(CleanTag(raw, lower), lower)
  {
    var tag := CleanTag(raw, lower);
    NothingToTrim(tag);
    assert ToLower(tag, lower) == tag;
  }

  predicate Mentions(raw: seq<string>, tag: string, lower: Fold) {
    exists i :: 0 <= i < |raw| && CleanTag(raw[i], lower) == tag
  }

  lemma {:induction false} CollectResult(raw: seq<string>, seen: set<string>, lower: Fold)
    requires Collect(raw, seen, lower).Some?
    ensures var out := Collect(raw, seen, lower).value;
            && Distinct(out)
            && (forall tag :: tag in out ==> WellFormed(tag, lower) && tag !in seen)
            && (forall tag :: tag != "" && tag !in seen ==> (tag in out <==> Mentions(raw, tag, lower)))
  {
    hide CleanTag, Malformed, WellFormed;
    if |raw| == 0 {
    } else {
      var tag := CleanTag(raw[0], lower);
      if tag == "" || tag in seen {
        CollectResult(raw[1..], seen, lower);
        FirstOrLater(raw, lower);
      } else {
        CollectResult(raw[1..], seen + {tag}, lower);
        FirstOrLater(raw, lower);
        CleanIsStable(raw[0], lower);
        var rest := Collect(raw[1..], seen + {tag}, lower).value;
        assert forall x :: x in [tag] + rest <==> x == tag || x in rest;
      }
    }
  }

  lemma FirstOrLater(raw: seq<string>, lower: Fold)
    requires |raw| > 0
    ensures forall tag :: Mentions(raw, tag, lower) <==>
            CleanTag(raw[0], lower) == tag || Mentions(raw[1..], tag, lower)
  {
    hide CleanTag;
    forall tag ensures Mentions(raw, tag, lower) <==> CleanTag(raw[0], lower) == tag || Mentions(raw[1..], tag, lower) {
      if Mentions(raw, tag, lower) {
        var i :| 0 <= i < |raw| && CleanTag(raw[i], lower) == tag;
        if i > 0 { assert raw[1..][i - 1] == raw[i]; }
      }
      if Mentions(raw[1..], tag, lower) {
        var i :| 0 <= i < |raw[1..]| && CleanTag(raw[1..][i], lower) == tag;
        assert raw[i + 1] == raw[1..][i];
      }
    }
  }

  lemma {:induction false} CollectOfClean(tags: seq<string>, seen: set<string>, lower: Fold)
    requires Distinct(tags) && forall tag :: tag in tags ==> WellFormed(tag, lower) && tag !in seen
    ensures Collect(tags, seen, lower) == Some(tags)
  {
    hide CleanTag, Malformed;
    if |tags| == 0 {
    } else {
      assert tags[0] in tags;
      assert tags == [tags[0]] + tags[1..];
      forall tag | tag in tags[1..] ensures WellFormed(tag, lower) && tag !in seen + {tags[0]} {
        var i :| 0 <= i < |tags[1..]| && tags[1..][i] == tag;
        assert tags[i + 1] == tag;
      }
      CollectOfClean(tags[1..], seen + {tags[0]}, lower);
    }
  }

  /** A normalised list: at most twenty distinct well-formed tags. */
  predicate IsNormal(tags: seq<string>, lower: Fold) {
    Distinct(tags) && |tags| <= MAX_TAGS && forall tag :: tag in tags ==> WellFormed(tag, lower)
  }

  /** The result is normal, and it holds exactly the non-empty cleaned tags. */
  lemma NormalizedIsNormal(raw: seq<string>, lower: Fold)
    requires Normalized(raw, lower).Some?
    ensures IsNormal(Normalized(raw, lower).value, lower)
    ensures forall tag :: tag != "" ==>
              (tag in Normalized(raw, lower).value <==> Mentions(raw, tag, lower))
  {
    CollectResult(raw, {}, lower);
  }

  /** Normal lists are fixed points, so normalising twice changes nothing. */
  lemma NormalIsFixed(tags: seq<string>, lower: Fold)
    requires IsNormal(tags, lower)
    ensures Normalized(tags, lower) == Some(tags)
  {
    CollectOfClean(tags, {}, lower);
  }

  // ---- when normalising fails ----

  predicate Spaces(s: string) {
    forall i :: 0 <= i < |s| ==> IsSpace(s[i])
  }

  lemma {:induction false} TrimLeftCuts(s: string) returns (cut: string)
    ensures s == cut + TrimLeft(s) && Spaces(cut) && (TrimLeft(s) != "" ==> !IsSpace(TrimLeft(s)[0]))
  {
    hide IsSpace;
    if |s| > 0 && IsSpace(s[0]) {
      var rest := TrimLeftCuts(s[1..]);
      cut := [s[0]] + rest;
      assert s == [s[0]] + s[1..] == cut + TrimLeft(s);
    } else {
      cut := "";
    }
  }

  lemma {:induction false} TrimRightCuts(s: string) returns (cut: string)
    ensures s == TrimRight(s) + cut && Spaces(cut)
    ensures TrimRight(s) != "" ==> !IsSpace(TrimRight(s)[|TrimRight(s)| - 1]) && TrimRight(s)[0] == s[0]
  {
    hide IsSpace;
    if |s| > 0 && IsSpace(s[|s| - 1]) {
      var rest := TrimRightCuts(s[..|s| - 1]);
      cut := rest + [s[|s| - 1]];
      assert s == s[..|s| - 1] + [s[|s| - 1]] == TrimRight(s) + cut;
    } else {
      cut := "";
    }
  }

  /** Trimming cuts white space off both ends and leaves none there. */
  lemma TrimSpaceIs(s: string) returns (a: string, b: string)
    ensures var t := TrimSpace(s);
            && s == a + t + b && Spaces(a) && Spaces(b)
            && (t != "" ==> !IsSpace(t[0]) && !IsSpace(t[|t| - 1]))
  {
    hide IsSpace;
    a := TrimLeftCuts(s);
    b := TrimRightCuts(TrimLeft(s));
    assert s == a + (TrimSpace(s) + b) == a + TrimSpace(s) + b;
  }

  /** A tag that is refused: too long, or with a comma, a hash or white space inside. */
  predicate Refused(tag: string) {
    |tag| > 30 || exists i :: 0 <= i < |tag| && (tag[i] == ',' || tag[i] == '#' || IsSpace(tag[i]))
  }

  /** The different tags of a list, cleaned, empty ones left out. */
  function CleanTags(raw: seq<string>, lower: Fold): set<string> {
    set i | 0 <= i < |raw| && CleanTag(raw[i], lower) != "" :: CleanTag(raw[i], lower)
  }

  lemma {:induction false} CollectFails(raw: seq<string>, seen: set<string>, lower: Fold)
    requires forall tag :: tag in seen ==> !Malformed(tag)
    ensures Collect(raw, seen, lower) == None <==> exists tag :: tag in CleanTags(raw, lower) && Malformed(tag)
    decreases |raw|
  {
    hide CleanTag, Malformed;
    if |raw| == 0 {
      assert CleanTags(raw, lower) == {};
    } else {
      var tag, rest := CleanTag(raw[0], lower), CleanTags(raw[1..], lower);
      CollectFails(raw[1..], seen, lower);
      assert CleanTags(raw, lower) == (if tag == "" then {} else {tag}) + rest by { FirstClean(raw, lower); }
      hide CleanTags;
      if tag != "" && !Malformed(tag) { CollectFails(raw[1..], seen + {tag}, lower); }
    }
  }

  lemma FirstClean(raw: seq<string>, lower: Fold)
    requires |raw| > 0
    ensures var tag := CleanTag(raw[0], lower);
            CleanTags(raw, lower) == (if tag == "" then {} else {tag}) + CleanTags(raw[1..], lower)
  {
    hide CleanTag;
    var tag := CleanTag(raw[0], lower);
    forall x | x in CleanTags(raw[1..], lower) ensures x in CleanTags(raw, lower) {
      var i :| 0 <= i < |raw[1..]| && CleanTag(raw[1..][i], lower) == x;
      assert raw[i + 1] == raw[1..][i];
    }
    forall x | x in CleanTags(raw, lower) ensures x == tag || x in CleanTags(raw[1..], lower) {
      var i :| 0 <= i < |raw| && CleanTag(raw[i], lower) == x;
      if i > 0 { assert raw[1..][i - 1] == raw[i]; }
    }
  }

  /** A list of tags is refused exactly if one of its cleaned tags is, or if it has more
      than twenty different ones. */
  lemma NormalizedFails(raw: seq<string>, lower: Fold)
    ensures Normalized(raw, lower) == None <==>
            (exists tag :: tag in CleanTags(raw, lower) && Refused(tag)) || |CleanTags(raw, lower)| > 20
  {
    CollectFails(raw, {}, lower);
    hide CleanTag;
    if Collect(raw, {}, lower).Some? {
      CollectResult(raw, {}, lower);
      var out := Collect(raw, {}, lower).value;
      assert forall tag :: tag in out <==> tag in CleanTags(raw, lower);
      CountDistinct(out, CleanTags(raw, lower));
    }
  }

  lemma {:induction false} CountDistinct(s: seq<string>, members: set<string>)
    requires Distinct(s) && forall x :: x in s <==> x in members
    ensures |s| == |members|
    decreases |s|
  {
    if |s| == 0 {
      assert members == {};
    } else {
      assert s == [s[0]] + s[1..];
      CountDistinct(s[1..], members - {s[0]});
    }
  }
}
