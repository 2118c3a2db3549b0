/** Recovery of the list of chart requests from the language model's reply
    (src/tools/chart_generator.py, lines 35-57). The JSON decoder is a parameter:
    `decode(t)` says whether `json.loads(t)` returns a value, raises `json.JSONDecodeError` or
    raises anything else. */
module SpecParser {
  import opened Wrappers
  import opened Strings
  import opened JsonValues

  const JsonFence := "```json"
  const SqlKeyword := "SELECT"
  const FallbackChartType := "bar"
  const FallbackTitle := "Gráfico"

  /** Removes every "```json", then every "```", then surrounding whitespace. */
  function CleanText(reply: string): string
  {
    Strip(RemoveAll(RemoveAll(reply, JsonFence), Backticks))
  }

  /** After cleaning there is no code fence left and no whitespace at either end. */
  lemma CleanTextHasNoFences(reply: string)
    ensures !Contains(CleanText(reply), Backticks)
    ensures !Contains(CleanText(reply), JsonFence)
    ensures CleanText(reply) != [] ==> !IsSpace(CleanText(reply)[0])
    ensures CleanText(reply) != [] ==> !IsSpace(CleanText(reply)[|CleanText(reply)| - 1])
  {
    var u := RemoveAll(RemoveAll(reply, JsonFence), Backticks);
    var text := CleanText(reply);
    RemoveBackticksLeavesNone(RemoveAll(reply, JsonFence));
    var i :| StrippedAt(u, text, i);
    StripKeepsAbsence(u, text, i, Backticks);
    PrefixOccurrence(text, Backticks, JsonFence);
  }

  /** Cleaning is idempotent, so a reply and its cleaned form give the same requests. */
  lemma CleanTextIdempotent(reply: string, decode: string -> Decoded)
    ensures CleanText(CleanText(reply)) == CleanText(reply)
    ensures ParseSpecs(CleanText(reply), decode) == ParseSpecs(reply, decode)
  {
    var text := CleanText(reply);
    CleanTextHasNoFences(reply);
    RemoveAllNotContained(text, JsonFence);
    RemoveAllNotContained(text, Backticks);
    StripKeeps(text);
  }

  /** A '[' at `i` with a ']' at `j` after it: a match of the pattern `\[.*\]` (dot matching newlines). */
  ghost predicate BracketPair(s: string, i: int, j: int)
  {
    0 <= i < j < |s| && s[i] == '[' && s[j] == ']'
  }

  /** The match `re.search` reports: the leftmost start, and from it the longest (greedy) end. */
  ghost predicate OutermostPair(s: string, i: int, j: int)
  {
    BracketPair(s, i, j) && forall i', j' :: BracketPair(s, i', j') ==> i <= i' && j' <= j
  }

  /** `re.search(r'\[.*\]', s, re.DOTALL).group(0)`, or `None` when there is no match. */
  function ExtractBracket(s: string): (r: Option<string>)
    ensures r.Some? <==> exists i, j :: BracketPair(s, i, j)
    ensures r.Some? ==> exists i, j :: OutermostPair(s, i, j) && r.value == s[i..j + 1]
  {
    var first := FirstIndex(s, '[');
    var last := LastIndex(s, ']');
    if first.Some? && last.Some? && first.value < last.value then
      assert OutermostPair(s, first.value, last.value);
      Some(s[first.value..last.value + 1])
    else
      None
  }

  /** Two outermost pairs are the same pair. */
  lemma OutermostPairUnique(s: string, i: int, j: int, i': int, j': int)
    requires OutermostPair(s, i, j) && OutermostPair(s, i', j')
    ensures i == i' && j == j'
  {
  }

  /** A bracketed text `arr` placed at `a` in `s`, with no '[' before it and no ']' after it,
      is exactly what the bracket search extracts. */
  lemma ExtractFramed(s: string, a: int, arr: string)
    requires |arr| >= 2 && arr[0] == '[' && arr[|arr| - 1] == ']'
    requires 0 <= a && a + |arr| <= |s| && s[a..a + |arr|] == arr
    requires forall k :: 0 <= k < a ==> s[k] != '['
    requires forall k :: a + |arr| <= k < |s| ==> s[k] != ']'
    ensures ExtractBracket(s) == Some(arr)
  {
    var b := a + |arr| - 1;
    assert s[a] == arr[0] && s[b] == arr[|arr| - 1];
    assert OutermostPair(s, a, b);
    var i, j :| OutermostPair(s, i, j) && ExtractBracket(s).value == s[i..j + 1];
    OutermostPairUnique(s, i, j, a, b);
  }

  /** `json.loads` result turned into a list: a list stays as it is, anything else is wrapped. */
  function AsList(v: Json): seq<Json>
  {
    if v.JArray? then v.items else [v]
  }

  /** The request synthesised when the reply only looks like SQL. */
  function FallbackSpec(text: string): Json
  {
    JObject(map["sql" := JString(text), "chart_type" := JString(FallbackChartType), "title" := JString(FallbackTitle)])
  }

  /** Lines 38-57 on the cleaned text: decode the bracketed part if there is one, else the whole
      text, else fall back on the SELECT keyword; an empty list stands for `return []`. */
  function ParseCleaned(text: string, decode: string -> Decoded): seq<Json>
  {
    match ExtractBracket(text)
    case Some(sub) =>
      (match decode(sub)
       case Parsed(v) => AsList(v)
       case _ => [])
    case None =>
      (match decode(text)
       case Parsed(v) => AsList(v)
       case SyntaxError => if Contains(Upper(text), SqlKeyword) then [FallbackSpec(text)] else []
       case OtherError => [])
  }

  /** Lines 35-57: the requests recovered from the model's reply. */
  function ParseSpecs(reply: string, decode: string -> Decoded): seq<Json>
  {
    ParseCleaned(CleanText(reply), decode)
  }

  /** When the cleaned reply holds a bracket pair, only the outermost bracketed slice is decoded:
      its failure empties the result whatever the whole text or the SELECT test would give,
      and its success is the result, normalised to a list. */
  lemma BracketSliceDecides(text: string, decode: string -> Decoded, i: int, j: int)
    requires OutermostPair(text, i, j)
    ensures !decode(text[i..j + 1]).Parsed? ==> ParseCleaned(text, decode) == []
    ensures decode(text[i..j + 1]).Parsed? ==> ParseCleaned(text, decode) == AsList(decode(text[i..j + 1]).value)
  {
    var r := ExtractBracket(text);
    var i', j' :| OutermostPair(text, i', j') && r.value == text[i'..j' + 1];
    OutermostPairUnique(text, i, j, i', j');
    assert ExtractBracket(text) == Some(text[i..j + 1]);
  }

  /** With no bracket pair and a text that does not decode, the result is the single fallback
      request (the cleaned text as its query, "bar", "Gráfico") exactly when the decoder raised
      `json.JSONDecodeError` and the upper-cased text contains SELECT; any other exception, or no
      SELECT, leaves nothing. */
  lemma SelectFallback(text: string, decode: string -> Decoded)
    requires forall i, j :: !BracketPair(text, i, j)
    requires !decode(text).Parsed?
    ensures decode(text) == SyntaxError && (exists k :: OccursAt(Upper(text), SqlKeyword, k)) ==>
              ParseCleaned(text, decode) == [FallbackSpec(text)]
    ensures decode(text) == OtherError || !(exists k :: OccursAt(Upper(text), SqlKeyword, k)) ==>
              ParseCleaned(text, decode) == []
  {
    ContainsIff(Upper(text), SqlKeyword);
  }

  /** With no bracket pair, a decodable whole text is the result, a list kept in order and any
      other value wrapped in a one-element list. */
  lemma WholeTextDecodes(text: string, decode: string -> Decoded, v: Json)
    requires forall i, j :: !BracketPair(text, i, j)
    requires decode(text) == Parsed(v)
    ensures v.JArray? ==> ParseCleaned(text, decode) == v.items
    ensures !v.JArray? ==> ParseCleaned(text, decode) == [v]
  {
  }

  /** Two cleaned texts with the same bracketed slice give the same requests. */
  lemma SameSliceSameSpecs(t1: string, t2: string, sub: string, decode: string -> Decoded)
    requires ExtractBracket(t1) == Some(sub) && ExtractBracket(t2) == Some(sub)
    ensures ParseCleaned(t1, decode) == ParseCleaned(t2, decode)
  {
  }

  /** A text of the shape the model is asked for is its own cleaned form and its own bracketed slice. */
  lemma BracketedTextIsClean(arr: string)
    requires |arr| >= 2 && arr[0] == '[' && arr[|arr| - 1] == ']'
    requires !Contains(arr, Backticks)
    ensures CleanText(arr) == arr
    ensures ExtractBracket(arr) == Some(arr)
  {
    PrefixOccurrence(arr, Backticks, JsonFence);
    RemoveAllNotContained(arr, JsonFence);
    RemoveAllNotContained(arr, Backticks);
    var r := Strip(arr);
    var i :| StrippedAt(arr, r, i);
    assert !IsSpace(arr[0]) && !IsSpace(arr[|arr| - 1]);
    assert i == 0 && |r| == |arr|;
    assert arr[0..|arr|] == arr;
    ExtractFramed(arr, 0, arr);
  }

  /** A reply that is a JSON array with at most prose or whitespace around it, and no code fence,
      yields the array's elements, in order. Single backticks (quoted identifiers) inside the
      array are allowed; a run of three is not. */
  lemma ArrayReplyYieldsItems(reply: string, pre: string, arr: string, post: string,
                              decode: string -> Decoded, items: seq<Json>)
    requires reply == pre + arr + post
    requires |arr| >= 2 && arr[0] == '[' && arr[|arr| - 1] == ']'
    requires !Contains(arr, Backticks)
    requires forall k :: 0 <= k < |pre| ==> pre[k] != '`' && pre[k] != '['
    requires forall k :: 0 <= k < |post| ==> post[k] != '`' && post[k] != ']'
    requires decode(arr) == Parsed(JArray(items))
    ensures ParseSpecs(reply, decode) == items
  {
    FramedNoFence(pre, arr, post);
    PrefixOccurrence(reply, Backticks, JsonFence);
    RemoveAllNotContained(reply, JsonFence);
    RemoveAllNotContained(reply, Backticks);
    var text := CleanText(reply);
    assert text == Strip(reply);
    var i :| StrippedAt(reply, text, i);
    ArrayOutlivesStrip(reply, pre, arr, post, text, i);
    assert ParseCleaned(text, decode) == items;
  }

  /** Text around a bracketed array, with no backtick of its own, adds no code fence: the
      whole holds no "```", and none can begin in it and run on into what follows. */
  lemma FramedNoFence(pre: string, arr: string, post: string)
    requires |arr| >= 2 && arr[0] == '[' && arr[|arr| - 1] == ']'
    requires !Contains(arr, Backticks)
    requires forall k :: 0 <= k < |pre| ==> pre[k] != '`'
    requires forall k :: 0 <= k < |post| ==> post[k] != '`'
    ensures !Contains(pre + arr + post, Backticks)
    ensures NoOverhang(pre + arr + post, Backticks) && NoOverhang(pre + arr + post, JsonFence)
  {
    FenceInsideArray(pre, arr, post);
    ClosedByBracket(pre, arr, post, Backticks);
    ClosedByBracket(pre, arr, post, JsonFence);
  }

  /** Every "```" in such a text lies inside the array. */
  lemma FenceInsideArray(pre: string, arr: string, post: string)
    requires forall k :: 0 <= k < |pre| ==> pre[k] != '`'
    requires forall k :: 0 <= k < |post| ==> post[k] != '`'
    ensures Contains(pre + arr + post, Backticks) ==> Contains(arr, Backticks)
  {
    var mid := pre + arr + post;
    ContainsIff(mid, Backticks);
    ContainsIff(arr, Backticks);
    if Contains(mid, Backticks) {
      var i :| OccursAt(mid, Backticks, i);
      assert mid[i] == mid[i..i + 3][0] == '`';
      assert mid[i + 2] == mid[i..i + 3][2] == '`';
      assert |pre| <= i && i + 3 <= |pre| + |arr|;
      assert arr[i - |pre|..i - |pre| + 3] == mid[i..i + 3];
      assert OccursAt(arr, Backticks, i - |pre|);
    }
  }

  /** A fence pattern has no ']', so it cannot begin before the array's closing bracket and run
      past the end; after the bracket there is no backtick to begin it. */
  lemma ClosedByBracket(pre: string, arr: string, post: string, pat: string)
    requires |arr| >= 1 && arr[|arr| - 1] == ']'
    requires forall k :: 0 <= k < |pre| ==> pre[k] != '`'
    requires forall k :: 0 <= k < |post| ==> post[k] != '`'
    requires pat == Backticks || pat == JsonFence
    ensures NoOverhang(pre + arr + post, pat)
  {
    var mid := pre + arr + post;
    var e := |pre| + |arr| - 1;
    forall p | 0 <= p < |mid| < p + |pat|
      ensures mid[p..] != pat[..|mid| - p]
    {
      if mid[p] != '`' {
        assert mid[p..][0] != pat[..|mid| - p][0];
      } else {
        assert p <= e;
        assert mid[p..][e - p] == ']';
        assert pat[..|mid| - p][e - p] == pat[e - p] != ']';
      }
    }
  }

  /** A backtick that does not start "```json" survives the first deletion pass. */
  lemma FenceHead(w: string)
    requires |w| >= 1 && w[0] == '`'
    requires |w| < 7 || w[..7] != JsonFence
    ensures RemoveAll(w, JsonFence) == ['`'] + RemoveAll(w[1..], JsonFence)
  {
    RemoveAllHead(w, JsonFence);
  }

  /** A closing fence directly followed by "json": both go in the first pass. */
  lemma ClosingFenceBeforeJson(w: string, y: string)
    requires w == Backticks + y
    requires forall k :: 0 <= k < |y| ==> y[k] != '`'
    requires |y| >= 4 && y[..4] == "json"
    ensures RemoveAll(RemoveAll(w, JsonFence), Backticks) == y[4..]
  {
    assert w[..7] == JsonFence;
    assert w[7..] == y[4..];
    RemoveAllAbsent(y[4..], JsonFence);
    RemoveAllAbsent(y[4..], Backticks);
  }

  /** A backtick followed by a character other than a backtick does not start "```json". */
  lemma NotFenceAt(w: string, k: nat)
    requires 1 <= k <= 2 && k < |w| && w[k] != '`'
    ensures |w| < 7 || w[..7] != JsonFence
  {
    assert |w| >= 7 ==> w[..7][k] == w[k];
  }

  /** Backticks at the front of a text that starts no "```json" survive the first pass. */
  lemma {:induction false} BacktickRunKept(w: string, n: nat)
    requires n <= |w| && n <= 3
    requires forall k :: 0 <= k < n ==> w[k] == '`'
    requires forall k :: n <= k < |w| ==> w[k] != '`'
    requires n < 3 || |w| < 7 || w[3..7] != "json"
    ensures RemoveAll(w, JsonFence) == w
    decreases n
  {
    if n == 0 {
      RemoveAllAbsent(w, JsonFence);
    } else {
      if n < 3 && n < |w| {
        NotFenceAt(w, n);
      } else if n == 3 {
        assert |w| >= 7 ==> w[..7][3..7] == w[3..7];
      }
      FenceHead(w);
      BacktickRunKept(w[1..], n - 1);
      assert [w[0]] + w[1..] == w;
    }
  }

  /** Any other closing fence survives the first pass and goes in the second. */
  lemma ClosingFenceAlone(w: string, y: string)
    requires w == Backticks + y
    requires forall k :: 0 <= k < |y| ==> y[k] != '`'
    requires |y| < 4 || y[..4] != "json"
    ensures RemoveAll(RemoveAll(w, JsonFence), Backticks) == y
  {
    assert |w| >= 7 ==> w[3..7] == y[..4];
    BacktickRunKept(w, 3);
    RemoveAllDropsLeading(y, Backticks);
    RemoveAllAbsent(y, Backticks);
  }

  /** Deleting "```json" and then "```" from "```" followed by backtick-free text leaves a suffix of that text. */
  lemma ClosingFenceVanishes(w: string, y: string)
    requires w == Backticks + y
    requires forall k :: 0 <= k < |y| ==> y[k] != '`'
    ensures exists m :: 0 <= m <= |y| && RemoveAll(RemoveAll(w, JsonFence), Backticks) == y[m..]
  {
    if |y| >= 4 && y[..4] == "json" {
      ClosingFenceBeforeJson(w, y);
    } else {
      ClosingFenceAlone(w, y);
      assert y[0..] == y;
    }
  }

  /** Prose around the array and a code fence around it change nothing: the reply
      `before` + "```" + `pre` + `arr` + `post` + "```" + `after` is parsed as `arr` alone,
      as long as `before` and `pre` hold no '[', `post` and `after` no ']', none of the four
      holds a backtick and `arr` holds no "```". The opening fence may carry any language tag
      in `pre`: "```json\n[...]\n```", "```JSON\n[...]\n```" and "```\n[...]\n```" alike. */
  lemma NoiseAroundArrayIgnored(reply: string, before: string, pre: string, arr: string, post: string,
                                after: string, decode: string -> Decoded)
    requires reply == before + Backticks + pre + arr + post + Backticks + after
    requires |arr| >= 2 && arr[0] == '[' && arr[|arr| - 1] == ']'
    requires !Contains(arr, Backticks)
    requires forall k :: 0 <= k < |before| ==> before[k] != '`' && before[k] != '['
    requires forall k :: 0 <= k < |pre| ==> pre[k] != '`' && pre[k] != '['
    requires forall k :: 0 <= k < |post| ==> post[k] != '`' && post[k] != ']'
    requires forall k :: 0 <= k < |after| ==> after[k] != '`' && after[k] != ']'
    ensures ParseSpecs(reply, decode) == ParseSpecs(arr, decode)
  {
    if |pre| >= 4 && pre[..4] == "json" {
      var tag := pre[4..];
      assert pre == "json" + tag;
      JsonFenceParts();
      AppendAssoc(Backticks, "json", tag);
      AppendAssoc(before, Backticks, pre);
      AppendAssoc(before, JsonFence, tag);
      assert reply == before + JsonFence + tag + arr + post + Backticks + after;
      JsonFencedArrayIgnored(reply, before, tag, arr, post, after, decode);
    } else {
      BareFencedArrayIgnored(reply, before, pre, arr, post, after, decode);
    }
  }

  /** The case of an opening "```" not followed by "json": the three backticks survive the first
      pass and go in the second. */
  lemma BareFencedArrayIgnored(reply: string, before: string, pre: string, arr: string, post: string,
                               after: string, decode: string -> Decoded)
    requires reply == before + Backticks + pre + arr + post + Backticks + after
    requires !(|pre| >= 4 && pre[..4] == "json")
    requires |arr| >= 2 && arr[0] == '[' && arr[|arr| - 1] == ']'
    requires !Contains(arr, Backticks)
    requires forall k :: 0 <= k < |before| ==> before[k] != '`' && before[k] != '['
    requires forall k :: 0 <= k < |pre| ==> pre[k] != '`' && pre[k] != '['
    requires forall k :: 0 <= k < |post| ==> post[k] != '`' && post[k] != ']'
    requires forall k :: 0 <= k < |after| ==> after[k] != '`' && after[k] != ']'
    ensures ParseSpecs(reply, decode) == ParseSpecs(arr, decode)
  {
    var mid := pre + arr + post;
    var closing := Backticks + after;
    FramedNoFence(pre, arr, post);
    NoJsonTag(pre, arr + post);
    AppendAssoc(before + Backticks + pre, arr, post);
    AppendAssoc(before + Backticks, pre, arr + post);
    AppendAssoc(pre, arr, post);
    assert reply == before + Backticks + mid + Backticks + after;
    var tail := BareFencesRemoved(reply, before, mid, after, closing);
    var m :| 0 <= m <= |after| && tail == after[m..];
    var text := CleanText(reply);
    LocateArray(before + mid + tail, before, pre, arr, post, after, m, text);
    BracketedTextIsClean(arr);
    SameSliceSameSpecs(text, arr, arr, decode);
  }

  /** A text that opens with `pre` and then a '[' or a backtick starts with "json" only when
      `pre` does. */
  lemma NoJsonTag(pre: string, rest: string)
    requires |rest| >= 1 && (rest[0] == '[' || rest[0] == '`')
    requires !(|pre| >= 4 && pre[..4] == "json")
    ensures !(|pre + rest| >= 4 && (pre + rest)[..4] == "json")
  {
    var y := pre + rest;
    if |pre| >= 4 {
      assert y[..4] == pre[..4];
    } else if |y| >= 4 {
      assert y[..4][|pre|] == rest[0];
    }
  }

  /** Three backticks not followed by "json" or by another backtick pass through the first
      deletion pass. */
  lemma BareFenceKept(y: string)
    requires |y| >= 1 && y[0] != '`'
    requires !(|y| >= 4 && y[..4] == "json")
    ensures RemoveAll(Backticks + y, JsonFence) == Backticks + RemoveAll(y, JsonFence)
  {
    var w := Backticks + y;
    BareFenceNotTagged(y);
    FenceHead(w);
    var w1 := w[1..];
    assert w1[2] == y[0];
    NotFenceAt(w1, 2);
    FenceHead(w1);
    var w2 := w1[1..];
    assert w2[1] == y[0];
    NotFenceAt(w2, 1);
    FenceHead(w2);
    assert w2[1..] == y;
    assert ['`'] + (['`'] + (['`'] + RemoveAll(y, JsonFence))) == Backticks + RemoveAll(y, JsonFence);
  }

  /** Three backticks not followed by "json" do not start "```json". */
  lemma BareFenceNotTagged(y: string)
    requires !(|y| >= 4 && y[..4] == "json")
    ensures !(|Backticks + y| >= 7 && (Backticks + y)[..7] == JsonFence)
  {
    var w := Backticks + y;
    JsonFenceParts();
    if |w| >= 7 {
      assert w[..7] == Backticks + y[..4];
      AppendDiffers(Backticks, y[..4], "json");
    }
  }

  /** "```json" is three backticks followed by "json". */
  lemma JsonFenceParts()
    ensures JsonFence == Backticks + "json"
  {
  }

  /** With a bare opening fence, both deletion passes leave `before` + `mid` + a suffix of `after`. */
  lemma BareFencesRemoved(reply: string, before: string, mid: string, after: string, closing: string)
    returns (tail: string)
    requires reply == before + Backticks + mid + Backticks + after
    requires closing == Backticks + after
    requires |mid| >= 1 && mid[0] != '`' && !(|mid| >= 4 && mid[..4] == "json")
    requires !Contains(mid, Backticks) && NoOverhang(mid, Backticks) && NoOverhang(mid, JsonFence)
    requires forall k :: 0 <= k < |before| ==> before[k] != '`'
    requires forall k :: 0 <= k < |after| ==> after[k] != '`'
    ensures exists m :: 0 <= m <= |after| && tail == after[m..]
    ensures RemoveAll(RemoveAll(reply, JsonFence), Backticks) == before + mid + tail
  {
    var rest := mid + closing;
    assert reply == before + (Backticks + rest);
    RemoveAllKeepsPrefix(before, Backticks + rest, JsonFence);
    NoJsonTag(mid, closing);
    BareFenceKept(rest);
    PrefixOccurrence(mid, Backticks, JsonFence);
    RemoveAllKeepsClean(mid, closing, JsonFence);
    var z := RemoveAll(closing, JsonFence);
    var once := RemoveAll(reply, JsonFence);
    assert once == before + (Backticks + (mid + z));
    RemoveAllKeepsPrefix(before, Backticks + (mid + z), Backticks);
    RemoveAllDropsLeading(mid + z, Backticks);
    RemoveAllKeepsClean(mid, z, Backticks);
    ClosingFenceVanishes(closing, after);
    var m :| 0 <= m <= |after| && RemoveAll(z, Backticks) == after[m..];
    tail := after[m..];
    assert RemoveAll(once, Backticks) == before + (mid + tail);
    AppendAssoc(before, mid, tail);
  }

  /** The case of an opening "```json": the reply
      `before` + "```json" + `pre` + `arr` + `post` + "```" + `after` is parsed as `arr` alone. */
  lemma JsonFencedArrayIgnored(reply: string, before: string, pre: string, arr: string, post: string,
                                after: string, decode: string -> Decoded)
    requires reply == before + JsonFence + pre + arr + post + Backticks + after
    requires |arr| >= 2 && arr[0] == '[' && arr[|arr| - 1] == ']'
    requires !Contains(arr, Backticks)
    requires forall k :: 0 <= k < |before| ==> before[k] != '`' && before[k] != '['
    requires forall k :: 0 <= k < |pre| ==> pre[k] != '`' && pre[k] != '['
    requires forall k :: 0 <= k < |post| ==> post[k] != '`' && post[k] != ']'
    requires forall k :: 0 <= k < |after| ==> after[k] != '`' && after[k] != ']'
    ensures ParseSpecs(reply, decode) == ParseSpecs(arr, decode)
  {
    var mid := pre + arr + post;
    var closing := Backticks + after;
    FramedNoFence(pre, arr, post);
    AppendAssoc(before + JsonFence + pre, arr, post);
    AppendAssoc(before + JsonFence, pre, arr + post);
    AppendAssoc(pre, arr, post);
    assert reply == before + JsonFence + mid + Backticks + after;
    var tail := FencesRemoved(reply, before, mid, after, closing);
    var m :| 0 <= m <= |after| && tail == after[m..];
    var text := CleanText(reply);
    LocateArray(before + mid + tail, before, pre, arr, post, after, m, text);
    BracketedTextIsClean(arr);
    SameSliceSameSpecs(text, arr, arr, decode);
  }

  /** Once the fences are gone, stripping and the bracket search find exactly `arr`. */
  lemma LocateArray(u: string, before: string, pre: string, arr: string, post: string,
                    after: string, m: int, text: string)
    requires 0 <= m <= |after| && u == before + (pre + arr + post) + after[m..] && text == Strip(u)
    requires |arr| >= 2 && arr[0] == '[' && arr[|arr| - 1] == ']'
    requires forall k :: 0 <= k < |before| ==> before[k] != '['
    requires forall k :: 0 <= k < |pre| ==> pre[k] != '['
    requires forall k :: 0 <= k < |post| ==> post[k] != ']'
    requires forall k :: 0 <= k < |after| ==> after[k] != ']'
    ensures ExtractBracket(text) == Some(arr)
  {
    var tail := after[m..];
    var i :| StrippedAt(u, text, i);
    AppendAssoc(before, pre + arr + post, tail);
    AppendAssoc(pre + arr, post, tail);
    AppendAssoc(pre, arr, post + tail);
    AppendAssoc(before, pre, arr + (post + tail));
    AppendAssoc(before + pre, arr, post + tail);
    assert u == (before + pre) + arr + (post + tail);
    assert forall k :: 0 <= k < |before + pre| ==> (before + pre)[k] != '[';
    assert forall k :: 0 <= k < |tail| ==> tail[k] == after[m + k];
    assert forall k :: 0 <= k < |post + tail| ==> (post + tail)[k] != ']';
    ArrayOutlivesStrip(u, before + pre, arr, post + tail, text, i);
  }

  /** Both deletion passes leave `before` + `mid` + a suffix of `after`. */
  lemma FencesRemoved(reply: string, before: string, mid: string, after: string, closing: string)
    returns (tail: string)
    requires reply == before + JsonFence + mid + Backticks + after
    requires closing == Backticks + after
    requires !Contains(mid, Backticks) && NoOverhang(mid, Backticks) && NoOverhang(mid, JsonFence)
    requires forall k :: 0 <= k < |before| ==> before[k] != '`'
    requires forall k :: 0 <= k < |after| ==> after[k] != '`'
    ensures exists m :: 0 <= m <= |after| && tail == after[m..]
    ensures RemoveAll(RemoveAll(reply, JsonFence), Backticks) == before + mid + tail
  {
    var rest := mid + closing;
    assert reply == before + (JsonFence + rest);
    RemoveAllKeepsPrefix(before, JsonFence + rest, JsonFence);
    RemoveAllDropsLeading(rest, JsonFence);
    PrefixOccurrence(mid, Backticks, JsonFence);
    RemoveAllKeepsClean(mid, closing, JsonFence);
    var z := RemoveAll(closing, JsonFence);
    assert RemoveAll(reply, JsonFence) == before + (mid + z);
    RemoveAllKeepsPrefix(before, mid + z, Backticks);
    RemoveAllKeepsClean(mid, z, Backticks);
    ClosingFenceVanishes(closing, after);
    var m :| 0 <= m <= |after| && RemoveAll(z, Backticks) == after[m..];
    tail := after[m..];
  }

  /** Stripping `before` + `arr` + `tail` only cuts into the prose, so the bracket search
      still finds exactly `arr`. */
  lemma ArrayOutlivesStrip(u: string, before: string, arr: string, tail: string, text: string, i: int)
    requires u == before + arr + tail && StrippedAt(u, text, i)
    requires |arr| >= 2 && arr[0] == '[' && arr[|arr| - 1] == ']'
    requires forall k :: 0 <= k < |before| ==> before[k] != '['
    requires forall k :: 0 <= k < |tail| ==> tail[k] != ']'
    ensures ExtractBracket(text) == Some(arr)
  {
    assert u[|before|] == '[' && u[|before| + |arr| - 1] == ']';
    assert !IsSpace(u[|before|]) && !IsSpace(u[|before| + |arr| - 1]);
    assert i <= |before| && i + |text| >= |before| + |arr|;
    var a := |before| - i;
    assert text[a..a + |arr|] == u[|before|..|before| + |arr|] == arr;
    forall k | 0 <= k < a ensures text[k] != '[' {
      assert text[k] == u[i + k] == before[i + k];
    }
    forall k | a + |arr| <= k < |text| ensures text[k] != ']' {
      assert text[k] == u[i + k] == tail[i + k - |before| - |arr|];
    }
    ExtractFramed(text, a, arr);
  }
}
