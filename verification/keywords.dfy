/** Keyword and tag extraction: the document tools' `_generate_keywords` and
    the knowledge tools' `_generate_tags`. Both drop case-insensitive
    duplicates, keeping the first spelling, and cap the result. */
module Keywords {
  import opened Wrappers
  import opened Strings
  import Seqs

  // ---- case-insensitive deduplication ----

  /** The first index whose element has key `l`, or `|xs|` when none does. */
  function FirstWith(xs: seq<string>, key: string -> string, l: string): (k: nat)
    ensures k <= |xs|
    ensures k < |xs| ==> key(xs[k]) == l
    ensures forall j :: 0 <= j < k ==> key(xs[j]) != l
    decreases |xs|
  {
    if |xs| == 0 then 0
    else if key(xs[0]) == l then 0
    else
      var k := FirstWith(xs[1..], key, l);
      assert forall j :: 1 <= j < k + 1 ==> xs[j] == xs[1..][j - 1];
      1 + k
  }

  lemma FirstWithTail(xs: seq<string>, key: string -> string, l: string)
    requires |xs| > 0 && key(xs[0]) != l
    ensures FirstWith(xs, key, l) == 1 + FirstWith(xs[1..], key, l)
  {
  }

  /** The loop `if key(kw) not in seen: seen.add(key(kw)); out.append(kw)`,
      started with `seen` already holding some keys. */
  function DedupeBy(xs: seq<string>, key: string -> string, seen: set<string>): (r: seq<string>)
    ensures |r| <= |xs|
    ensures forall i :: 0 <= i < |r| ==> r[i] in xs && key(r[i]) !in seen
    decreases |xs|
  {
    if |xs| == 0 then []
    else if key(xs[0]) in seen then DedupeBy(xs[1..], key, seen)
    else [xs[0]] + DedupeBy(xs[1..], key, seen + {key(xs[0])})
  }

  /** Case-insensitive deduplication from an empty `seen`. */
  function Dedupe(xs: seq<string>): seq<string> {
    DedupeBy(xs, Lower, {})
  }

  /** Each kept word is the first word of `xs` with its key. */
  lemma {:induction false} DedupeFirst(xs: seq<string>, key: string -> string, seen: set<string>)
    ensures forall i :: 0 <= i < |DedupeBy(xs, key, seen)| ==>
      && FirstWith(xs, key, key(DedupeBy(xs, key, seen)[i])) < |xs|
      && xs[FirstWith(xs, key, key(DedupeBy(xs, key, seen)[i]))] == DedupeBy(xs, key, seen)[i]
    decreases |xs|
  {
    if |xs| > 0 {
      var x, tl := xs[0], xs[1..];
      var s2 := if key(x) in seen then seen else seen + {key(x)};
      var rest := DedupeBy(tl, key, s2);
      DedupeFirst(tl, key, s2);
      var r := DedupeBy(xs, key, seen);
      assert r == if key(x) in seen then rest else [x] + rest;
      forall i | 0 <= i < |r|
        ensures FirstWith(xs, key, key(r[i])) < |xs| && xs[FirstWith(xs, key, key(r[i]))] == r[i]
      {
        if key(x) !in seen && i == 0 {
        } else {
          var q := if key(x) in seen then i else i - 1;
          assert r[i] == rest[q] && key(rest[q]) !in s2;
          FirstWithTail(xs, key, key(r[i]));
          var m := FirstWith(tl, key, key(rest[q]));
          assert m < |tl| && tl[m] == rest[q];
          assert xs[1 + m] == tl[m];
        }
      }
    }
  }

  /** The kept words follow the order of their first occurrences, so no two
      share a key. */
  lemma {:induction false} DedupeOrder(xs: seq<string>, key: string -> string, seen: set<string>)
    ensures forall i, j :: 0 <= i < j < |DedupeBy(xs, key, seen)| ==>
      FirstWith(xs, key, key(DedupeBy(xs, key, seen)[i])) < FirstWith(xs, key, key(DedupeBy(xs, key, seen)[j]))
    decreases |xs|
  {
    if |xs| > 0 {
      var x, tl := xs[0], xs[1..];
      var s2 := if key(x) in seen then seen else seen + {key(x)};
      var rest := DedupeBy(tl, key, s2);
      DedupeOrder(tl, key, s2);
      forall i | 0 <= i < |rest|
        ensures FirstWith(xs, key, key(rest[i])) == 1 + FirstWith(tl, key, key(rest[i]))
      {
        assert key(rest[i]) !in s2;
        FirstWithTail(xs, key, key(rest[i]));
      }
      if key(x) !in seen {
        var r := [x] + rest;
        assert DedupeBy(xs, key, seen) == r;
        forall i, j | 0 <= i < j < |r|
          ensures FirstWith(xs, key, key(r[i])) < FirstWith(xs, key, key(r[j]))
        {
          assert r[j] == rest[j - 1];
          if i > 0 {
            assert r[i] == rest[i - 1];
          } else {
            assert FirstWith(xs, key, key(r[i])) == 0;
          }
        }
      }
    }
  }

  /** The key of the word at index `k` is kept among the first `k + 1`
      outputs, unless it was already seen. */
  lemma {:induction false} DedupeCovers(xs: seq<string>, key: string -> string, seen: set<string>)
    ensures forall k :: 0 <= k < |xs| && key(xs[k]) !in seen ==>
      FirstWith(DedupeBy(xs, key, seen), key, key(xs[k])) <= k
      && FirstWith(DedupeBy(xs, key, seen), key, key(xs[k])) < |DedupeBy(xs, key, seen)|
    decreases |xs|
  {
    if |xs| > 0 {
      var x, tl := xs[0], xs[1..];
      var s2 := if key(x) in seen then seen else seen + {key(x)};
      var rest := DedupeBy(tl, key, s2);
      DedupeCovers(tl, key, s2);
      var r := DedupeBy(xs, key, seen);
      assert r == if key(x) in seen then rest else [x] + rest;
      forall k | 0 <= k < |xs| && key(xs[k]) !in seen
        ensures FirstWith(r, key, key(xs[k])) <= k && FirstWith(r, key, key(xs[k])) < |r|
      {
        var l := key(xs[k]);
        if l == key(x) {
          assert r[0] == x;
        } else {
          assert k > 0 && xs[k] == tl[k - 1] && key(tl[k - 1]) !in s2;
          if key(x) !in seen {
            assert r[1..] == rest;
            FirstWithTail(r, key, l);
          }
        }
      }
    }
  }

  /** No two kept words share a lower-cased form. */
  predicate DistinctLower(r: seq<string>) {
    forall i, j :: 0 <= i < j < |r| ==> Lower(r[i]) != Lower(r[j])
  }

  /** `Dedupe(xs)[:n]`: distinct lower-cased forms, each word the first
      spelling of its form in `xs`, and the form of every one of the first
      `n` words represented. */
  lemma CappedDedupe(xs: seq<string>, n: nat)
    ensures var r := Seqs.Prefix(Dedupe(xs), n);
      && |r| <= n
      && DistinctLower(r)
      && (forall i :: 0 <= i < |r| ==> r[i] in xs && r[i] == xs[FirstWith(xs, Lower, Lower(r[i]))])
      && (forall k :: 0 <= k < |xs| && k < n ==> exists i :: 0 <= i < |r| && Lower(r[i]) == Lower(xs[k]))
  {
    var d := Dedupe(xs);
    var r := Seqs.Prefix(d, n);
    DedupeFirst(xs, Lower, {});
    DedupeOrder(xs, Lower, {});
    DedupeCovers(xs, Lower, {});
    assert forall i :: 0 <= i < |r| ==> r[i] == d[i];
    forall i, j | 0 <= i < j < |r|
      ensures Lower(r[i]) != Lower(r[j])
    {
      assert FirstWith(xs, Lower, Lower(d[i])) < FirstWith(xs, Lower, Lower(d[j]));
    }
    forall k | 0 <= k < |xs| && k < n
      ensures exists i :: 0 <= i < |r| && Lower(r[i]) == Lower(xs[k])
    {
      var i := FirstWith(d, Lower, Lower(xs[k]));
      assert r[i] == d[i];
    }
  }

  // ---- `str.lstrip(chars)` and `str.strip(chars)` ----

  /** Drops the leading characters that belong to `cs`. */
  function DropLeft(s: string, cs: set<char>): (r: string)
    ensures |r| <= |s| && r == s[|s| - |r|..]
    ensures forall i :: 0 <= i < |s| - |r| ==> s[i] in cs
    ensures |r| == 0 || r[0] !in cs
    decreases |s|
  {
    if |s| > 0 && s[0] in cs then
      var r := DropLeft(s[1..], cs);
      assert forall i :: 1 <= i < |s| - |r| ==> s[i] == s[1..][i - 1];
      r
    else s
  }

  /** Drops the trailing characters that belong to `cs`. */
  function DropRight(s: string, cs: set<char>): (r: string)
    ensures |r| <= |s| && r == s[..|r|]
    ensures forall i :: |r| <= i < |s| ==> s[i] in cs
    ensures |r| == 0 || r[|r| - 1] !in cs
    decreases |s|
  {
    if |s| > 0 && s[|s| - 1] in cs then
      var r := DropRight(s[..|s| - 1], cs);
      assert forall i :: |r| <= i < |s| - 1 ==> s[i] == s[..|s| - 1][i];
      r
    else s
  }

  /** `s.strip(chars)`: a slice of `s` with no character of `cs` at either end. */
  function StripChars(s: string, cs: set<char>): (r: string)
    ensures |r| <= |s|
    ensures forall c :: c in r ==> c in s
    ensures |r| > 0 ==> r[0] !in cs && r[|r| - 1] !in cs
    ensures (|s| == 0 || (s[0] !in cs && s[|s| - 1] !in cs)) ==> r == s
  {
    var t := DropRight(s, cs);
    var r := DropLeft(t, cs);
    assert |r| > 0 ==> r[|r| - 1] == t[|t| - 1];
    assert forall c :: c in r ==> c in t;
    r
  }

  // ---- _generate_keywords ----

  predicate Long2(w: string) {
    |w| >= 2
  }

  /** The words of the name with at least two characters. */
  function NameWords(name: string): seq<string> {
    Seqs.Filter(Long2, Words(name))
  }

  /** The heading words of one line: a line that starts with "#" once
      stripped, with its leading '#'s and the surrounding whitespace removed,
      split on whitespace, keeping words of at least two characters. */
  function HeadingLineWords(line: string): (r: seq<string>)
    ensures forall i :: 0 <= i < |r| ==> |r[i]| >= 2 && NoSpace(r[i])
    ensures !StartsWith(Strip(line), "#") ==> r == []
  {
    var t := Strip(line);
    if StartsWith(t, "#") then Seqs.Filter(Long2, Words(Strip(DropLeft(t, {'#'})))) else []
  }

  /** The heading words of all lines, in order. */
  function HeadingWords(lines: seq<string>): (r: seq<string>)
    ensures forall i :: 0 <= i < |r| ==> |r[i]| >= 2 && NoSpace(r[i])
  {
    if |lines| == 0 then [] else HeadingLineWords(lines[0]) + HeadingWords(lines[1..])
  }

  /** A keyword is the feature itself, or a word of two or more
      characters without whitespace. */
  predicate Shaped(c: string, feature: Option<string>) {
    (feature.Some? && c == feature.value) || (|c| >= 2 && NoSpace(c))
  }

  lemma NameWordsShaped(name: string, feature: Option<string>)
    ensures forall c :: c in NameWords(name) ==> Shaped(c, feature)
  {
    var ws := Words(name);
    forall c | c in NameWords(name)
      ensures Shaped(c, feature)
    {
      var j :| 0 <= j < |ws| && ws[j] == c;
    }
  }

  /** The keyword list before deduplication: name words, the feature when
      truthy, and the first ten heading words. */
  function KeywordCandidates(name: string, content: string, feature: Option<string>): (r: seq<string>)
    ensures forall c :: c in r ==> Shaped(c, feature)
  {
    var nw := NameWords(name);
    var f := if feature.Some? && feature.value != "" then [feature.value] else [];
    var hw := Seqs.Prefix(HeadingWords(Split(content, '\n')), 10);
    NameWordsShaped(name, feature);
    assert forall c :: c in hw ==> Shaped(c, feature);
    nw + f + hw
  }

  /** `_generate_keywords(name, content, feature)`. */
  function GenerateKeywords(name: string, content: string, feature: Option<string>): (r: seq<string>)
    ensures |r| <= 20
    ensures DistinctLower(r)
    ensures forall i :: 0 <= i < |r| ==> Shaped(r[i], feature)
    ensures forall i :: 0 <= i < |r| ==> r[i] in KeywordCandidates(name, content, feature)
    ensures forall k :: 0 <= k < 20 && k < |KeywordCandidates(name, content, feature)| ==>
      exists i :: 0 <= i < |r| && Lower(r[i]) == Lower(KeywordCandidates(name, content, feature)[k])
  {
    var cands := KeywordCandidates(name, content, feature);
    CappedDedupe(cands, 20);
    Seqs.Prefix(Dedupe(cands), 20)
  }

  /** Without a feature or headings, the keywords are the first twenty
      distinct name words of two or more characters. */
  lemma KeywordsFromName(name: string, content: string)
    requires forall line :: line in Split(content, '\n') ==> !StartsWith(Strip(line), "#")
    ensures GenerateKeywords(name, content, None) == Seqs.Prefix(Dedupe(NameWords(name)), 20)
  {
    NoHeadingWords(Split(content, '\n'));
    var nw := NameWords(name);
    assert Seqs.Prefix(HeadingWords(Split(content, '\n')), 10) == [];
    assert KeywordCandidates(name, content, None) == nw + [] + [];
    assert nw + [] + [] == nw;
  }

  lemma {:induction false} NoHeadingWords(lines: seq<string>)
    requires forall line :: line in lines ==> !StartsWith(Strip(line), "#")
    ensures HeadingWords(lines) == []
    decreases |lines|
  {
    if |lines| > 0 {
      assert lines[0] in lines;
      assert forall line :: line in lines[1..] ==> line in lines;
      NoHeadingWords(lines[1..]);
    }
  }

  /** A truthy feature is always among the keywords (in some spelling)
      when the name has fewer than twenty words of two or more characters. */
  lemma FeatureKept(name: string, content: string, feature: Option<string>)
    requires feature.Some? && feature.value != "" && |NameWords(name)| < 20
    ensures exists i :: (0 <= i < |GenerateKeywords(name, content, feature)|
      && Lower(GenerateKeywords(name, content, feature)[i]) == Lower(feature.value))
  {
    var nw := NameWords(name);
    var hw := Seqs.Prefix(HeadingWords(Split(content, '\n')), 10);
    var cands := KeywordCandidates(name, content, feature);
    var k := |nw|;
    assert cands == nw + [feature.value] + hw;
    assert cands[k] == feature.value;
    assert k < 20 && k < |cands|;
    var r := GenerateKeywords(name, content, feature);
    var i :| 0 <= i < |r| && Lower(r[i]) == Lower(cands[k]);
    assert 0 <= i < |r| && Lower(r[i]) == Lower(feature.value);
  }

  // ---- _generate_tags ----

  /** The characters `word.strip` removes. */
  const Punctuation: set<char> := {',', '.', ';', ':', '(', ')', '[', ']', '{', '}', '"', '\''}

  /** The words never taken as tags, compared lower-cased. */
  const CommonWords: set<string> := {
    "the", "and", "for", "with", "this", "that", "from",
    "have", "will", "are", "was", "were", "been", "being",
    "です", "ます", "した", "する", "ある", "いる", "なる",
    "という", "ため", "こと", "もの", "これ", "それ"}

  predicate IsUpper(c: char) {
    'A' <= c <= 'Z'
  }

  /** The technical-term heuristics: a "U" prefix, a "++" or "API" suffix,
      an underscore, or an upper-case first letter followed by another
      upper-case letter. */
  predicate Technical(w: string) {
    || StartsWith(w, "U") || EndsWith(w, "++") || EndsWith(w, "API") || '_' in w
    || (|w| > 0 && IsUpper(w[0]) && exists j :: 1 <= j < |w| && IsUpper(w[j]))
  }

  /** A stripped word that becomes a tag. */
  predicate KeepTag(w: string) {
    |w| >= 3 && Lower(w) !in CommonWords && Technical(w)
  }

  /** Each word with the punctuation stripped from both ends. */
  function Stripped(words: seq<string>): (r: seq<string>)
    ensures |r| == |words|
    ensures forall i :: 0 <= i < |r| ==> r[i] == StripChars(words[i], Punctuation)
  {
    seq(|words|, i requires 0 <= i < |words| => StripChars(words[i], Punctuation))
  }

  /** The stripped words that pass the filters, in order. */
  function TagCandidates(words: seq<string>): seq<string> {
    Seqs.Filter(KeepTag, Stripped(words))
  }

  /** A candidate is a kept stripped word, and every stripped word that
      passes the filters is a candidate. */
  lemma TagCandidatesSpec(words: seq<string>)
    ensures forall c :: c in TagCandidates(words) ==>
      KeepTag(c) && exists k :: 0 <= k < |words| && c == StripChars(words[k], Punctuation)
    ensures forall k :: 0 <= k < |words| ==>
      (KeepTag(StripChars(words[k], Punctuation)) ==> StripChars(words[k], Punctuation) in TagCandidates(words))
  {
    var st := Stripped(words);
    forall c | c in TagCandidates(words)
      ensures KeepTag(c) && exists k :: 0 <= k < |words| && c == StripChars(words[k], Punctuation)
    {
      var k :| 0 <= k < |st| && st[k] == c;
    }
    forall k | 0 <= k < |words| && KeepTag(StripChars(words[k], Punctuation))
      ensures StripChars(words[k], Punctuation) in TagCandidates(words)
    {
      assert st[k] == StripChars(words[k], Punctuation);
    }
  }

  /** A tag is a candidate stripped from one whitespace-free word, so it has
      no whitespace and no punctuation at either end. */
  predicate TagShaped(c: string) {
    |c| > 0 && NoSpace(c) && c[0] !in Punctuation && c[|c| - 1] !in Punctuation
  }

  lemma CandidatesShaped(words: seq<string>)
    requires forall i :: 0 <= i < |words| ==> NoSpace(words[i])
    ensures forall c :: c in TagCandidates(words) ==> TagShaped(c)
  {
    var st := Stripped(words);
    forall c | c in TagCandidates(words)
      ensures TagShaped(c)
    {
      assert c in st && |c| >= 3;
      var k :| 0 <= k < |st| && st[k] == c;
      StripShaped(words[k]);
    }
  }

  /** A non-empty stripped word without whitespace is tag-shaped. */
  lemma StripShaped(w: string)
    requires NoSpace(w) && |StripChars(w, Punctuation)| > 0
    ensures TagShaped(StripChars(w, Punctuation))
  {
    var c := StripChars(w, Punctuation);
    forall p | 0 <= p < |c|
      ensures !IsSpace(c[p])
    {
      assert c[p] in c;
    }
  }

  /** `_generate_tags(content)`. */
  function GenerateTags(content: string): (r: seq<string>)
    ensures |r| <= 10
    ensures DistinctLower(r)
    ensures forall i :: 0 <= i < |r| ==> KeepTag(r[i]) && TagShaped(r[i])
    ensures forall k :: 0 <= k < 10 && k < |TagCandidates(Words(content))| ==>
      exists i :: 0 <= i < |r| && Lower(r[i]) == Lower(TagCandidates(Words(content))[k])
  {
    var cands := TagCandidates(Words(content));
    CappedDedupe(cands, 10);
    CandidatesShaped(Words(content));
    Seqs.Prefix(Dedupe(cands), 10)
  }

  /** Content that is a single technical word, with no punctuation at
      its ends, is tagged with exactly that word. */
  lemma SingleWordTag(w: string)
    requires |w| > 0 && NoSpace(w) && w[0] !in Punctuation && w[|w| - 1] !in Punctuation
    requires KeepTag(w)
    ensures GenerateTags(w) == [w]
  {
    WordsSingle(w);
    assert Stripped([w]) == [w];
    assert TagCandidates([w]) == [w];
    assert Dedupe([w]) == [w];
  }
}
