/**
 * Profiles and their derived fields, locations, and the analysis driver that
 * turns captured payloads into profiles and feeds the cross-network links it
 * finds back into the ledger.
 */
module Analyser {
  import opened Wrappers
  import opened Strings
  import Ledger

  // ---------------------------------------------------------------------------
  // Content and Location
  // ---------------------------------------------------------------------------

  datatype ContentType = Image | Video | Text | Links

  /** A published item, reduced to what the derived fields read: its type and its body. */
  datatype Content = Content(ctype: ContentType, body: string)

  /** The `location` value: missing, a free-text place name, or a (lon, lat) pair. */
  datatype Place = Absent | Words(text: string) | Coords(lon: real, lat: real)

  datatype Location = Location(place: Place, detailed: bool)

  /** Python truthiness of a location value: None and '' are false, any pair is true. */
  predicate Given(p: Place)
  {
    match p
    case Absent => false
    case Words(t) => t != []
    case Coords(_, _) => true
  }

  /**
   * Location.near. `haversine` stands for the great-circle test used when both
   * locations are detailed (distance under 10 km with an earth radius of 6371 km).
   */
  function Near(a: Location, b: Location, haversine: (Location, Location) -> bool): bool
  {
    if !Given(a.place) || !Given(b.place) then false
    else if !a.detailed && !b.detailed && a.place.Words? && b.place.Words? then
      Contains(b.place.text, a.place.text) || Contains(a.place.text, b.place.text)
    else if a.detailed && b.detailed then haversine(a, b)
    else false
  }

  /** The string branch of near: empty locations and mixed detail are never near; two place names are near iff one occurs in the other. */
  lemma NearCases(a: Location, b: Location, haversine: (Location, Location) -> bool)
    ensures !Given(a.place) || !Given(b.place) ==> !Near(a, b, haversine)
    ensures a.detailed != b.detailed ==> !Near(a, b, haversine)
    ensures !a.detailed && !b.detailed && !(a.place.Words? && b.place.Words?) ==> !Near(a, b, haversine)
    ensures !a.detailed && !b.detailed && a.place.Words? && b.place.Words? && Given(a.place) && Given(b.place) ==>
      (Near(a, b, haversine) <==>
        (exists k :: OccursAt(b.place.text, a.place.text, k)) || (exists k :: OccursAt(a.place.text, b.place.text, k)))
  {
    if a.place.Words? && b.place.Words? {
      ContainsAt(b.place.text, a.place.text);
      ContainsAt(a.place.text, b.place.text);
    }
  }

  /** near is symmetric whenever the coordinate test is. */
  lemma NearSymmetric(a: Location, b: Location, haversine: (Location, Location) -> bool)
    requires forall x, y :: haversine(x, y) == haversine(y, x)
    ensures Near(a, b, haversine) == Near(b, a, haversine)
  {
  }

  // ---------------------------------------------------------------------------
  // Best name
  // ---------------------------------------------------------------------------

  /** `name.find(' ') > -1` */
  predicate HasSpace(name: string)
  {
    ' ' in name
  }

  /** The index of the first name holding a space, if any. */
  function FirstSpaced(names: seq<string>): (r: Option<nat>)
    ensures r.None? <==> forall i :: 0 <= i < |names| ==> !HasSpace(names[i])
    ensures r.Some? ==> r.value < |names| && HasSpace(names[r.value])
    ensures r.Some? ==> forall i :: 0 <= i < r.value ==> !HasSpace(names[i])
  {
    if names == [] then None
    else if HasSpace(names[0]) then Some(0)
    else match FirstSpaced(names[1..])
      case None => None
      case Some(i) => Some(i + 1)
  }

  /**
   * What bestname() settles on: the first name with a space; failing that the
   * last name (the mixed-case test in the loop compares a method object with a
   * string and so always passes, without stopping the loop); None if there are
   * no names.
   */
  function BestNameOf(names: seq<string>): Option<string>
  {
    match FirstSpaced(names)
    case Some(i) => Some(names[i])
    case None => if names == [] then None else Some(names[|names| - 1])
  }

  /** bestname's loop over the names: stop at the first with a space, otherwise keep the last. */
  method ScanNames(names: seq<string>) returns (best: Option<string>)
    ensures best == BestNameOf(names)
  {
    best := None;
    var i := 0;
    while i < |names|
      invariant 0 <= i <= |names|
      invariant forall j :: 0 <= j < i ==> !HasSpace(names[j])
      invariant best == if i == 0 then None else Some(names[i - 1])
    {
      if ' ' in names[i] {
        best := Some(names[i]);
        break;
      } else {
        // `name.swapcase != name` compares a bound method with a string: always true
        best := Some(names[i]);
      }
      i := i + 1;
    }
  }

  /** Python truthiness of an optional string. */
  predicate Truthy(n: Option<string>)
  {
    n.Some? && n.value != ""
  }

  /** The best name is None exactly for no names; otherwise it is one of the names, with a space if any name has one. */
  lemma BestNameChoice(names: seq<string>)
    ensures BestNameOf(names).None? <==> names == []
    ensures BestNameOf(names).Some? ==> BestNameOf(names).value in names
    ensures (exists i :: 0 <= i < |names| && HasSpace(names[i])) ==> HasSpace(BestNameOf(names).value)
    ensures (forall i :: 0 <= i < |names| ==> !HasSpace(names[i])) && names != [] ==>
      BestNameOf(names) == Some(names[|names| - 1])
  {
  }

  // ---------------------------------------------------------------------------
  // Time-activity profile
  // ---------------------------------------------------------------------------

  /** The bucket of an hour: 00-03, 04-07, 08-11, 12-15, 16-19, and everything above 19. */
  function Bucket(hour: nat): (b: nat)
    ensures b < 6
  {
    if hour < 4 then 0
    else if hour < 8 then 1
    else if hour < 12 then 2
    else if hour < 16 then 3
    else if hour < 20 then 4
    else 5
  }

  /** The bucket is hour div 4, with everything from 20 on in bucket 5. */
  lemma BucketIsQuarter(hour: nat)
    ensures Bucket(hour) == if hour / 4 < 5 then hour / 4 else 5
  {
  }

  /** How many timestamps fall in bucket b. */
  function CountBucket(hours: seq<nat>, b: int): (r: nat)
    ensures r <= |hours|
  {
    if hours == [] then 0
    else CountBucket(hours[..|hours| - 1], b) + (if Bucket(hours[|hours| - 1]) == b then 1 else 0)
  }

  /** The activity profile: None without timestamps, otherwise each bucket's share of the timestamps. */
  function TimeProfileOf(hours: seq<nat>): (r: Option<seq<real>>)
    ensures r.None? <==> hours == []
    ensures r.Some? ==> |r.value| == 6
  {
    if hours == [] then None
    else Some(seq(6, b => CountBucket(hours, b) as real / |hours| as real))
  }

  function Sum6(t: seq<real>): real
    requires |t| == 6
  {
    t[0] + t[1] + t[2] + t[3] + t[4] + t[5]
  }

  /** Every timestamp lands in exactly one bucket. */
  lemma {:induction false} CountBucketsTotal(hours: seq<nat>)
    ensures CountBucket(hours, 0) + CountBucket(hours, 1) + CountBucket(hours, 2)
          + CountBucket(hours, 3) + CountBucket(hours, 4) + CountBucket(hours, 5) == |hours|
  {
    if hours != [] {
      CountBucketsTotal(hours[..|hours| - 1]);
    }
  }

  /** The activity profile is a distribution over the six buckets. */
  lemma TimeProfileIsDistribution(hours: seq<nat>)
    requires hours != []
    ensures |TimeProfileOf(hours).value| == 6
    ensures forall b :: 0 <= b < 6 ==> 0.0 <= TimeProfileOf(hours).value[b] <= 1.0
    ensures Sum6(TimeProfileOf(hours).value) == 1.0
  {
    forall b | 0 <= b < 6 ensures 0.0 <= TimeProfileOf(hours).value[b] <= 1.0 {
      Share(CountBucket(hours, b) as real, |hours| as real);
    }
    CountBucketsTotal(hours);
    SharesSum(CountBucket(hours, 0) as real, CountBucket(hours, 1) as real, CountBucket(hours, 2) as real,
      CountBucket(hours, 3) as real, CountBucket(hours, 4) as real, CountBucket(hours, 5) as real, |hours| as real);
  }

  /** A part over a positive whole lies in [0, 1]. */
  lemma Share(c: real, n: real)
    requires 0.0 <= c <= n && n > 0.0
    ensures 0.0 <= c / n <= 1.0
  {
  }

  lemma SharesSum(c0: real, c1: real, c2: real, c3: real, c4: real, c5: real, n: real)
    requires n > 0.0 && c0 + c1 + c2 + c3 + c4 + c5 == n
    ensures c0 / n + c1 / n + c2 / n + c3 / n + c4 / n + c5 / n == 1.0
  {
  }

  lemma SharesAdd(a: real, b: real, n: real)
    requires n > 0.0
    ensures a / n + b / n == (a + b) / n
  {
  }

  // ---------------------------------------------------------------------------
  // Writing style
  // ---------------------------------------------------------------------------

  /**
   * The function-word list of getWritingStyle (70 words, in its order), built
   * from rows of ten by a recursive function, so that proofs which never look
   * at the words themselves do not have to unfold the whole literal.
   */
  const FunctionWords: seq<string> := WordRows(7)

  /** The first n rows of ten of the list. */
  function WordRows(n: nat): seq<string>
  {
    if n == 0 then [] else WordRows(n - 1) + WordRow(n - 1)
  }

  /** Row k of the list. */
  function WordRow(k: nat): seq<string>
  {
    if k == 0 then ["a", "it", "up", "for", "some", "as", "not", "who", "if", "there"]
    else if k == 1 then ["do", "our", "an", "more", "were", "has", "that", "been", "on", "would"]
    else if k == 2 then ["is", "to", "every", "so", "are", "no", "which", "his", "then", "can"]
    else if k == 3 then ["or", "also", "may", "was", "had", "than", "be", "of", "with", "into"]
    else if k == 4 then ["this", "even", "should", "any", "my", "when", "her", "their", "by", "only"]
    else if k == 5 then ["all", "its", "upon", "from", "such", "at", "now", "will", "in", "things"]
    else ["down", "shall", "and", "must", "what", "have", "the", "but", "one", "your"]
  }

  /** `text.lower().split()` */
  function Tokens(text: string): seq<string>
  {
    Split(Lower(text))
  }

  /** The bodies of the TEXT items, in order. */
  function TextBodies(content: seq<Content>): (r: seq<string>)
    ensures |r| <= |content|
  {
    if content == [] then []
    else TextBodies(content[..|content| - 1])
         + (if content[|content| - 1].ctype == Text then [content[|content| - 1].body] else [])
  }

  /** The token count over all texts. */
  function TotalTokens(texts: seq<string>): nat
  {
    if texts == [] then 0 else TotalTokens(texts[..|texts| - 1]) + |Tokens(texts[|texts| - 1])|
  }

  /** getWritingStyle's outcomes: no TEXT item (None), a zero token total (ZeroDivisionError), or the signature. */
  datatype Style = NoText | ZeroTokens | Signature(weights: map<string, real>)

  /**
   * The signature: each function word's count in the LAST text only (the loop
   * overwrites the entry for every text), over the token total of ALL texts.
   */
  function WritingStyleOf(content: seq<Content>): Style
  {
    var texts := TextBodies(content);
    if texts == [] then NoText
    else if TotalTokens(texts) == 0 then ZeroTokens
    else
      var last := Tokens(texts[|texts| - 1]);
      Signature(Shares(FunctionWords, last, TotalTokens(texts)))
  }

  /** Each listed word's count in toks as a share of norm. */
  function Shares(words: seq<string>, toks: seq<string>, norm: nat): map<string, real>
    requires norm > 0
  {
    map w | w in words :: Count(toks, w) as real / norm as real
  }

  /** Sum of the counts of the words of ws in toks. */
  ghost function CountSum(ws: set<string>, toks: seq<string>): nat
    decreases ws
  {
    if ws == {} then 0 else var w :| w in ws; Count(toks, w) + CountSum(ws - {w}, toks)
  }

  /** Sum of the weights of the words of ws. */
  ghost function WeightSum(sig: map<string, real>, ws: set<string>): real
    requires ws <= sig.Keys
    decreases ws
  {
    if ws == {} then 0.0 else var w :| w in ws; sig[w] + WeightSum(sig, ws - {w})
  }

  lemma {:induction false} CountSumRemove(ws: set<string>, toks: seq<string>, x: string)
    requires x in ws
    ensures CountSum(ws, toks) == Count(toks, x) + CountSum(ws - {x}, toks)
    decreases ws
  {
    var y :| y in ws && CountSum(ws, toks) == Count(toks, y) + CountSum(ws - {y}, toks);
    if y != x {
      CountSumRemove(ws - {y}, toks, x);
      CountSumRemove(ws - {x}, toks, y);
      assert ws - {y} - {x} == ws - {x} - {y};
    }
  }

  lemma {:induction false} WeightSumRemove(sig: map<string, real>, ws: set<string>, x: string)
    requires ws <= sig.Keys && x in ws
    ensures WeightSum(sig, ws) == sig[x] + WeightSum(sig, ws - {x})
    decreases ws
  {
    var y :| y in ws && WeightSum(sig, ws) == sig[y] + WeightSum(sig, ws - {y});
    if y != x {
      WeightSumRemove(sig, ws - {y}, x);
      WeightSumRemove(sig, ws - {x}, y);
      assert ws - {y} - {x} == ws - {x} - {y};
    }
  }

  /** Appending one token adds one to the count sum exactly when the token is one of the words. */
  lemma {:induction false} CountSumAppend(ws: set<string>, toks: seq<string>, t: string)
    ensures CountSum(ws, toks + [t]) == CountSum(ws, toks) + (if t in ws then 1 else 0)
    decreases ws
  {
    if ws != {} {
      var x :| x in ws;
      CountSumRemove(ws, toks + [t], x);
      CountSumRemove(ws, toks, x);
      CountSumAppend(ws - {x}, toks, t);
      assert (toks + [t])[..|toks + [t]| - 1] == toks;
    }
  }

  /** The counts of distinct words in a token list add up to at most its length. */
  lemma {:induction false} CountSumBound(ws: set<string>, toks: seq<string>)
    ensures CountSum(ws, toks) <= |toks|
    decreases |toks|, ws
  {
    if toks == [] {
      if ws != {} {
        var x :| x in ws;
        CountSumRemove(ws, toks, x);
        CountSumBound(ws - {x}, toks);
      }
    } else {
      var init := toks[..|toks| - 1];
      CountSumBound(ws, init);
      CountSumAppend(ws, init, toks[|toks| - 1]);
      assert init + [toks[|toks| - 1]] == toks;
    }
  }

  /** A signature's weights add up to its count sum over the token total. */
  lemma {:induction false} WeightSumIsCountSum(sig: map<string, real>, ws: set<string>, toks: seq<string>, norm: nat)
    requires norm > 0 && ws <= sig.Keys
    requires forall w :: w in ws ==> sig[w] == Count(toks, w) as real / norm as real
    ensures WeightSum(sig, ws) == CountSum(ws, toks) as real / norm as real
    decreases ws
  {
    if ws != {} {
      var x :| x in ws;
      WeightSumRemove(sig, ws, x);
      CountSumRemove(ws, toks, x);
      WeightSumIsCountSum(sig, ws - {x}, toks, norm);
      SharesAdd(Count(toks, x) as real, CountSum(ws - {x}, toks) as real, norm as real);
    }
  }

  /**
   * With TEXT content and a positive token total, the signature has exactly the
   * function words as keys, each weight is in [0, 1], and the weights add up to
   * at most 1.
   */
  lemma WritingStyleBounds(content: seq<Content>)
    requires WritingStyleOf(content).Signature?
    ensures var sig := WritingStyleOf(content).weights;
      && sig.Keys == set w | w in FunctionWords
      && (forall w :: w in sig ==> 0.0 <= sig[w] <= 1.0)
      && WeightSum(sig, sig.Keys) <= 1.0
  {
    var texts := TextBodies(content);
    TotalTokensCoversLast(texts);
    SharesBounded(FunctionWords, Tokens(texts[|texts| - 1]), TotalTokens(texts));
  }

  /** The shares of any word list's counts in toks, over a total covering toks, lie in [0, 1] and add up to at most 1. */
  lemma SharesBounded(words: seq<string>, toks: seq<string>, norm: nat)
    requires 0 < norm && |toks| <= norm
    ensures var sig := Shares(words, toks, norm);
      && sig.Keys == set w | w in words
      && (forall w :: w in sig ==> 0.0 <= sig[w] <= 1.0)
      && WeightSum(sig, sig.Keys) <= 1.0
  {
    var sig := Shares(words, toks, norm);
    forall w | w in sig ensures 0.0 <= sig[w] <= 1.0 {
      Share(Count(toks, w) as real, norm as real);
    }
    CountSumBound(sig.Keys, toks);
    WeightSumIsCountSum(sig, sig.Keys, toks, norm);
    Share(CountSum(sig.Keys, toks) as real, norm as real);
  }

  /** The last text's tokens are part of the total. */
  lemma TotalTokensCoversLast(texts: seq<string>)
    requires texts != []
    ensures |Tokens(texts[|texts| - 1])| <= TotalTokens(texts)
  {
  }

  /** No TEXT item means no signature; a signature needs a positive token total. */
  lemma WritingStyleOutcomes(content: seq<Content>)
    ensures WritingStyleOf(content).NoText? <==> forall i :: 0 <= i < |content| ==> content[i].ctype != Text
    ensures WritingStyleOf(content).ZeroTokens? ==> TextBodies(content) != [] && TotalTokens(TextBodies(content)) == 0
  {
    TextBodiesEmpty(content);
  }

  lemma {:induction false} TextBodiesEmpty(content: seq<Content>)
    ensures TextBodies(content) == [] <==> forall i :: 0 <= i < |content| ==> content[i].ctype != Text
  {
    if content != [] {
      TextBodiesEmpty(content[..|content| - 1]);
    }
  }

  // ---------------------------------------------------------------------------
  // Links
  // ---------------------------------------------------------------------------

  /** The longest prefix without a ' ' (the `[^ ]+` part of the pattern). */
  function NonBlank(s: string): (r: string)
    ensures |r| <= |s| && r == s[..|r|] && ' ' !in r
    ensures |r| < |s| ==> s[|r|] == ' '
  {
    if s == [] || s[0] == ' ' then [] else [s[0]] + NonBlank(s[1..])
  }

  /** The length of the match of `https?://[^ ]+` starting at the first character of s, or 0 if none. */
  function UrlLength(s: string): (n: nat)
    ensures n <= |s|
  {
    if IsPrefix("https://", s) && |s| > 8 && s[8] != ' ' then 8 + |NonBlank(s[8..])|
    else if IsPrefix("http://", s) && |s| > 7 && s[7] != ' ' then 7 + |NonBlank(s[7..])|
    else 0
  }

  /** A URL as the pattern finds it: the scheme, at least one more character, no ' '. */
  predicate UrlShaped(u: string)
  {
    ' ' !in u && ((IsPrefix("https://", u) && |u| > 8) || (IsPrefix("http://", u) && |u| > 7))
  }

  /** `re.findall(r"(https?://[^ ]+)", s)`: the non-overlapping matches from left to right. */
  function FindUrls(s: string): seq<string>
    decreases |s|
  {
    if s == [] then []
    else if UrlLength(s) > 0 then [s[..UrlLength(s)]] + FindUrls(s[UrlLength(s)..])
    else FindUrls(s[1..])
  }

  lemma {:induction false} ContainsInSuffix(s: string, k: nat, u: string)
    requires k <= |s| && Contains(s[k..], u)
    ensures Contains(s, u)
    decreases k
  {
    if k > 0 {
      assert s[1..][k - 1..] == s[k..];
      ContainsInSuffix(s[1..], k - 1, u);
    }
  }

  /** Every URL found is URL-shaped and occurs in the text. */
  lemma {:induction false} FindUrlsShape(s: string)
    ensures forall u :: u in FindUrls(s) ==> UrlShaped(u) && Contains(s, u)
    decreases |s|
  {
    if s != [] {
      var n := UrlLength(s);
      if n > 0 {
        FindUrlsShape(s[n..]);
        var u := s[..n];
        if IsPrefix("https://", s) && |s| > 8 && s[8] != ' ' {
          assert u == s[..8] + NonBlank(s[8..]);
        } else {
          assert u == s[..7] + NonBlank(s[7..]);
        }
        assert IsPrefix(u, s);
        forall v | v in FindUrls(s[n..]) ensures Contains(s, v) {
          ContainsInSuffix(s, n, v);
        }
      } else {
        FindUrlsShape(s[1..]);
        forall v | v in FindUrls(s[1..]) ensures Contains(s, v) {
          ContainsInSuffix(s, 1, v);
        }
      }
    }
  }

  /** The text the pattern matches at position i of s (empty when no URL starts there). */
  function UrlAt(s: string, i: nat): (u: string)
    requires i <= |s|
    ensures |u| == UrlLength(s[i..])
  {
    s[i..i + UrlLength(s[i..])]
  }

  /**
   * A match of the pattern begins at i: a URL starts there, and none starts
   * earlier in the same space-free run (that one would have swallowed i).
   */
  predicate MatchStart(s: string, i: nat)
  {
    && i <= |s|
    && UrlStarts(s, i)
    && forall k {:trigger UrlStarts(s, k)} :: 0 <= k < i && ' ' !in s[k..i] ==> !UrlStarts(s, k)
  }

  /** A URL starts at position k of s. */
  predicate UrlStarts(s: string, k: nat)
  {
    k <= |s| && UrlLength(s[k..]) > 0
  }

  /** A URL starts with a non-space, holds no space, and runs up to the next space or the end. */
  lemma UrlRun(s: string)
    ensures UrlLength(s) > 0 ==> s[0] != ' ' && ' ' !in s[..UrlLength(s)]
    ensures UrlLength(s) > 0 ==> UrlLength(s) == |s| || s[UrlLength(s)] == ' '
  {
    var n := UrlLength(s);
    if IsPrefix("https://", s) && |s| > 8 && s[8] != ' ' {
      assert s[..n] == s[..8] + NonBlank(s[8..]);
      assert s[..8] == "https://";
    } else if IsPrefix("http://", s) && |s| > 7 && s[7] != ' ' {
      assert s[..n] == s[..7] + NonBlank(s[7..]);
      assert s[..7] == "http://";
    }
  }

  /** Every match runs to the next space (or the end of the text): `[^ ]+` is greedy. */
  lemma MatchRunsToSpace(s: string, i: nat)
    requires MatchStart(s, i)
    ensures ' ' !in UrlAt(s, i)
    ensures i + |UrlAt(s, i)| == |s| || s[i + |UrlAt(s, i)|] == ' '
  {
    UrlRun(s[i..]);
  }

  /** The position the scan resumes from after position 0: past the URL there, or one character on. */
  function Resume(s: string): (m: nat)
    requires s != []
    ensures 0 < m <= |s|
  {
    if UrlLength(s) > 0 then UrlLength(s) else 1
  }

  /** Every position from 0 up to Resume(s) - 1 is cut off from Resume(s) + i by a space, unless a URL cannot start there. */
  lemma ResumeBlocked(s: string, i: nat, k: nat)
    requires s != [] && Resume(s) + i <= |s| && k < Resume(s)
    requires UrlLength(s[Resume(s) + i..]) > 0
    ensures ' ' in s[k..Resume(s) + i] || UrlLength(s[k..]) == 0
  {
    var m := Resume(s);
    if UrlLength(s) > 0 {
      UrlRun(s);
      UrlRun(s[m + i..]);
      assert s[k..m + i][m - k] == s[m];
    } else {
      assert s[k..] == s;
    }
  }

  /** A match start in the rest of the text after Resume(s) is a match start in the whole text. */
  lemma MatchStartShift(s: string, i: nat)
    requires s != [] && MatchStart(s[Resume(s)..], i)
    ensures MatchStart(s, Resume(s) + i) && UrlAt(s, Resume(s) + i) == UrlAt(s[Resume(s)..], i)
  {
    var m := Resume(s);
    var t := s[m..];
    assert t[i..] == s[m + i..];
    ShiftedBlockedAll(s, i);
  }

  /** No position before Resume(s) + i starts a URL within the same space-free run. */
  lemma ShiftedBlockedAll(s: string, i: nat)
    requires s != [] && MatchStart(s[Resume(s)..], i)
    ensures forall k {:trigger UrlStarts(s, k)} :: 0 <= k < Resume(s) + i && ' ' !in s[k..Resume(s) + i] ==> !UrlStarts(s, k)
  {
    var m := Resume(s);
    assert s[m..][i..] == s[m + i..];
    assert UrlLength(s[m + i..]) > 0;
    forall k | 0 <= k < m + i && ' ' !in s[k..m + i] ensures !UrlStarts(s, k) {
      if k >= m {
        ShiftedBlocked(s, m, i, k);
      } else {
        ResumeBlocked(s, i, k);
      }
    }
  }

  /** A position between m and a match start m + i of s[m..] with no space in between cannot start a URL. */
  lemma ShiftedBlocked(s: string, m: nat, i: nat, k: nat)
    requires m <= k < m + i <= |s| && MatchStart(s[m..], i)
    requires ' ' !in s[k..m + i]
    ensures UrlLength(s[k..]) == 0
  {
    var t := s[m..];
    assert t[k - m..i] == s[k..m + i];
    assert t[k - m..] == s[k..];
    assert !UrlStarts(t, k - m);
  }

  /** A match start past position 0 lies at or beyond Resume(s). */
  lemma MatchStartPast(s: string, i: nat)
    requires 0 < i && MatchStart(s, i)
    ensures Resume(s) <= i
  {
    UrlRun(s);
    assert s[0..] == s;
    PrefixOfUrl(s, i);
    assert ' ' !in s[0..i] ==> !UrlStarts(s, 0);
  }

  /** A piece of the URL at position 0 holds no space. */
  lemma PrefixOfUrl(s: string, i: nat)
    requires i <= |s|
    ensures 0 < i <= UrlLength(s) ==> ' ' !in s[0..i]
  {
    UrlRun(s);
    if 0 < i <= UrlLength(s) {
      assert s[0..i] == s[..UrlLength(s)][..i];
    }
  }

  /** A match start at or beyond Resume(s) is a match start in the rest of the text. */
  lemma MatchStartUnshift(s: string, i: nat)
    requires s != [] && Resume(s) <= i && MatchStart(s, i)
    ensures MatchStart(s[Resume(s)..], i - Resume(s)) && UrlAt(s[Resume(s)..], i - Resume(s)) == UrlAt(s, i)
  {
    var m := Resume(s);
    var t := s[m..];
    assert t[i - m..] == s[i..];
    forall k | 0 <= k < i - m && ' ' !in t[k..i - m] ensures !UrlStarts(t, k) {
      assert t[k..i - m] == s[m + k..i];
      assert t[k..] == s[m + k..];
      assert !UrlStarts(s, m + k);
    }
  }

  /** Every URL findall returns is the match at some match start. */
  lemma {:induction false} FindUrlsSound(s: string)
    ensures forall u :: u in FindUrls(s) ==> exists i: nat :: MatchStart(s, i) && u == UrlAt(s, i)
    decreases |s|
  {
    if s != [] {
      var m := Resume(s);
      FindUrlsSound(s[m..]);
      assert s[0..] == s;
      assert FindUrls(s) == (if UrlLength(s) > 0 then [s[..m]] else []) + FindUrls(s[m..]);
      forall u | u in FindUrls(s) ensures exists i: nat :: MatchStart(s, i) && u == UrlAt(s, i) {
        if UrlLength(s) > 0 && u == s[..m] {
          assert MatchStart(s, 0) && u == UrlAt(s, 0);
        } else {
          var i: nat :| MatchStart(s[m..], i) && u == UrlAt(s[m..], i);
          MatchStartShift(s, i);
        }
      }
    }
  }

  /** findall returns the match at every match start. */
  lemma {:induction false} FindUrlsComplete(s: string, i: nat)
    requires MatchStart(s, i)
    ensures UrlAt(s, i) in FindUrls(s)
    decreases |s|
  {
    if i == 0 {
      assert s[0..] == s;
    } else {
      MatchStartPast(s, i);
      MatchStartUnshift(s, i);
      FindUrlsComplete(s[Resume(s)..], i - Resume(s));
    }
  }

  /**
   * `re.findall(r"(https?://[^ ]+)", s)` finds exactly the matches at the
   * match starts, each running to the next space.
   */
  lemma FindUrlsExactly(s: string)
    ensures forall u :: u in FindUrls(s) <==> exists i: nat :: MatchStart(s, i) && u == UrlAt(s, i)
    ensures forall i: nat :: MatchStart(s, i) ==> i + |UrlAt(s, i)| == |s| || s[i + |UrlAt(s, i)|] == ' '
  {
    FindUrlsSound(s);
    forall i: nat | MatchStart(s, i) ensures UrlAt(s, i) in FindUrls(s) {
      FindUrlsComplete(s, i);
    }
    forall i: nat | MatchStart(s, i) ensures i + |UrlAt(s, i)| == |s| || s[i + |UrlAt(s, i)|] == ' ' {
      MatchRunsToSpace(s, i);
    }
  }

  /** The links before dropping empty values: URLs found in TEXT bodies and whole LINKS bodies, in content order. */
  function RawLinks(content: seq<Content>): seq<string>
  {
    if content == [] then []
    else
      var c := content[|content| - 1];
      RawLinks(content[..|content| - 1])
      + (if c.ctype == Text then FindUrls(c.body) else if c.ctype == Links then [c.body] else [])
  }

  /** `[l for l in links if l]` */
  function NonEmpty(links: seq<string>): (r: seq<string>)
    ensures forall l :: l in r <==> l in links && l != []
  {
    if links == [] then []
    else NonEmpty(links[..|links| - 1]) + (if links[|links| - 1] != [] then [links[|links| - 1]] else [])
  }

  /** What getLinks returns. */
  function LinksOf(content: seq<Content>): seq<string>
  {
    NonEmpty(RawLinks(content))
  }

  /** Item c yields link l: the match at a match start of a TEXT body (URL-shaped), or a whole LINKS body. */
  ghost predicate Yields(c: Content, l: string)
  {
    || (c.ctype == Text && UrlShaped(l) && exists j: nat :: MatchStart(c.body, j) && l == UrlAt(c.body, j))
    || (c.ctype == Links && c.body == l)
  }

  /** Every link is non-empty and is either a match found in a TEXT body or a whole LINKS body. */
  lemma {:induction false} LinksOrigin(content: seq<Content>)
    ensures forall l :: l in LinksOf(content) ==>
      (l != [] && exists i :: 0 <= i < |content| && Yields(content[i], l))
  {
    RawLinksOrigin(content);
  }

  lemma {:induction false} RawLinksOrigin(content: seq<Content>)
    ensures forall l :: l in RawLinks(content) ==> exists i :: 0 <= i < |content| && Yields(content[i], l)
  {
    if content != [] {
      var init := content[..|content| - 1];
      var c := content[|content| - 1];
      RawLinksOrigin(init);
      FindUrlsShape(c.body);
      FindUrlsSound(c.body);
      forall l | l in RawLinks(content)
        ensures exists i :: 0 <= i < |content| && Yields(content[i], l)
      {
        if l in RawLinks(init) {
          var i :| 0 <= i < |init| && Yields(init[i], l);
          assert content[i] == init[i];
        } else {
          assert content[|content| - 1] == c;
        }
      }
    }
  }

  /** Every LINKS body that is non-empty is among the links. */
  lemma {:induction false} LinksKeepLinkBodies(content: seq<Content>, i: nat)
    requires i < |content| && content[i].ctype == Links && content[i].body != []
    ensures content[i].body in LinksOf(content)
  {
    RawLinksKeepLinkBodies(content, i);
  }

  lemma {:induction false} RawLinksKeepLinkBodies(content: seq<Content>, i: nat)
    requires i < |content| && content[i].ctype == Links
    ensures content[i].body in RawLinks(content)
  {
    if i < |content| - 1 {
      RawLinksKeepLinkBodies(content[..|content| - 1], i);
    }
  }

  /** Every match a TEXT body holds is among the links. */
  lemma {:induction false} LinksKeepTextUrls(content: seq<Content>, i: nat, j: nat)
    requires i < |content| && content[i].ctype == Text && MatchStart(content[i].body, j)
    ensures UrlAt(content[i].body, j) in LinksOf(content)
  {
    RawLinksKeepTextUrls(content, i, j);
  }

  lemma {:induction false} RawLinksKeepTextUrls(content: seq<Content>, i: nat, j: nat)
    requires i < |content| && content[i].ctype == Text && MatchStart(content[i].body, j)
    ensures UrlAt(content[i].body, j) in RawLinks(content)
  {
    if i < |content| - 1 {
      RawLinksKeepTextUrls(content[..|content| - 1], i, j);
    } else {
      FindUrlsComplete(content[i].body, j);
    }
  }

  /** The TEXT bodies of a content list, collected in one pass. */
  method CollectTexts(content: seq<Content>) returns (texts: seq<string>)
    ensures texts == TextBodies(content)
  {
    texts := [];
    for i := 0 to |content|
      invariant texts == TextBodies(content[..i])
    {
      if content[i].ctype == Text {
        texts := texts + [content[i].body];
      }
      assert content[..i + 1][..i] == content[..i];
    }
    assert content[..|content|] == content;
  }

  /** One text's pass over the word list (the function words): each word's entry becomes its count in the tokens. */
  method CountWords(sig: map<string, real>, textarr: seq<string>, words: seq<string>) returns (out: map<string, real>)
    ensures forall w :: w in out <==> w in sig || w in words
    ensures forall w :: w in words ==> out[w] == Count(textarr, w) as real
    ensures forall w :: w in sig && w !in words ==> out[w] == sig[w]
  {
    out := sig;
    for j := 0 to |words|
      invariant forall w :: w in out <==> w in sig || w in words[..j]
      invariant forall w :: w in words[..j] ==> out[w] == Count(textarr, w) as real
      invariant forall w :: w in sig && w !in words[..j] ==> out[w] == sig[w]
    {
      out := out[words[j] := Count(textarr, words[j]) as real];
      assert words[..j + 1] == words[..j] + [words[j]];
    }
    assert words[..|words|] == words;
  }

  /** The normalisation pass: every entry, visited once per key, divided by the token total. */
  method Normalise(sig: map<string, real>, norm: nat) returns (out: map<string, real>)
    requires norm > 0
    ensures out.Keys == sig.Keys
    ensures forall w :: w in sig ==> out[w] == sig[w] / norm as real
  {
    out := sig;
    var todo := sig.Keys;
    while todo != {}
      invariant todo <= sig.Keys && out.Keys == sig.Keys
      invariant forall w :: w in sig ==> out[w] == if w in todo then sig[w] else sig[w] / norm as real
      decreases |todo|
    {
      var w :| w in todo;
      out := out[w := out[w] / norm as real];
      todo := todo - {w};
    }
  }

  lemma TotalTokensNext(texts: seq<string>, i: nat)
    requires i < |texts|
    ensures TotalTokens(texts[..i + 1]) == TotalTokens(texts[..i]) + |Tokens(texts[i])|
  {
    assert texts[..i + 1][..i] == texts[..i];
  }

  /** After the first i texts: the total is their token count and the entries are the listed words' counts in text i - 1. */
  ghost predicate TextsCounted(texts: seq<string>, words: seq<string>, i: nat, sig: map<string, real>, norm: nat)
    requires i <= |texts|
  {
    && norm == TotalTokens(texts[..i])
    && (forall w :: w in sig <==> i > 0 && w in words)
    && (i > 0 ==> forall w :: w in sig ==> sig[w] == Count(Tokens(texts[i - 1]), w) as real)
  }

  /** The per-text pass over text i. */
  method CountText(texts: seq<string>, words: seq<string>, i: nat, sig: map<string, real>, norm: nat)
    returns (sig': map<string, real>, norm': nat)
    requires i < |texts| && TextsCounted(texts, words, i, sig, norm)
    ensures TextsCounted(texts, words, i + 1, sig', norm')
  {
    var textarr := Split(Lower(texts[i]));
    sig' := CountWords(sig, textarr, words);
    norm' := norm + |textarr|;
    TotalTokensNext(texts, i);
  }

  lemma TextsCountedAll(texts: seq<string>, words: seq<string>, sig: map<string, real>, norm: nat)
    requires texts != [] && TextsCounted(texts, words, |texts|, sig, norm)
    ensures norm == TotalTokens(texts)
    ensures forall w :: w in sig <==> w in words
    ensures forall w :: w in sig ==> sig[w] == Count(Tokens(texts[|texts| - 1]), w) as real
  {
    assert texts[..|texts|] == texts;
  }

  /** The per-text pass: every text rewrites the counts of the listed words and adds its length to the total. */
  method CountTexts(texts: seq<string>, words: seq<string>) returns (sig: map<string, real>, norm: nat)
    requires texts != []
    ensures norm == TotalTokens(texts)
    ensures forall w :: w in sig <==> w in words
    ensures forall w :: w in sig ==> sig[w] == Count(Tokens(texts[|texts| - 1]), w) as real
  {
    sig := map[];
    norm := 0;
    for i: nat := 0 to |texts|
      invariant TextsCounted(texts, words, i, sig, norm)
    {
      sig, norm := CountText(texts, words, i, sig, norm);
    }
    TextsCountedAll(texts, words, sig, norm);
  }

  /** The computation getWritingStyle caches: collect the texts, count per text, normalise by the total. */
  method ComputeWritingStyle(content: seq<Content>) returns (r: Style)
    ensures r == WritingStyleOf(content)
  {
    var texts := CollectTexts(content);
    if |texts| == 0 {
      return NoText;
    }
    var sig, norm := CountTexts(texts, FunctionWords);
    if norm == 0 {
      return ZeroTokens;
    }
    var counts := sig;
    sig := Normalise(counts, norm);
    NormalisedShares(counts, sig, FunctionWords, Tokens(texts[|texts| - 1]), norm);
    return Signature(sig);
  }

  /** Dividing every count of the listed words by the total gives their shares. */
  lemma NormalisedShares(counts: map<string, real>, sig: map<string, real>, words: seq<string>, toks: seq<string>, norm: nat)
    requires norm > 0
    requires forall w :: w in counts <==> w in words
    requires forall w :: w in counts ==> counts[w] == Count(toks, w) as real
    requires sig.Keys == counts.Keys && forall w :: w in counts ==> sig[w] == counts[w] / norm as real
    ensures sig == Shares(words, toks, norm)
  {
    assert sig.Keys == Shares(words, toks, norm).Keys;
  }

  /** The bucket shares of timeProfile, accumulated one unit of 1/len per timestamp. */
  method ComputeTimeProfile(times: seq<nat>) returns (r: Option<seq<real>>)
    ensures r == TimeProfileOf(times)
  {
    if |times| == 0 {
      return None;
    }
    var unit: real := 1.0 / |times| as real;
    var tact: seq<real> := [];
    for b := 0 to 6
      invariant tact == seq(b, _ => 0.0)
    {
      tact := tact + [0.0];
    }
    for i := 0 to |times|
      invariant |tact| == 6
      invariant forall b :: 0 <= b < 6 ==> tact[b] == Units(CountBucket(times[..i], b), unit)
    {
      var t := times[i];
      var b := if t < 4 then 0 else if t < 8 then 1 else if t < 12 then 2
               else if t < 16 then 3 else if t < 20 then 4 else 5;
      assert b == Bucket(t);
      ghost var prev := tact;
      tact := tact[b := tact[b] + unit];
      assert times[..i + 1][..i] == times[..i];
      forall k | 0 <= k < 6
        ensures tact[k] == Units(CountBucket(times[..i + 1], k), unit)
      {
        if k != b {
          assert tact[k] == prev[k];
        }
      }
    }
    assert times[..|times|] == times;
    forall b | 0 <= b < 6
      ensures tact[b] == CountBucket(times, b) as real / |times| as real
    {
      UnitsShare(CountBucket(times, b), |times|);
    }
    assert tact == seq(6, b => CountBucket(times, b) as real / |times| as real);
    return Some(tact);
  }

  /** k additions of u, as the float accumulation performs them. */
  function Units(k: nat, u: real): real
  {
    if k == 0 then 0.0 else Units(k - 1, u) + u
  }

  /** Adding 1/n k times gives k/n. */
  lemma {:induction false} UnitsShare(k: nat, n: nat)
    requires n > 0
    ensures Units(k, 1.0 / n as real) == k as real / n as real
  {
    if k > 0 {
      UnitsShare(k - 1, n);
      SharesAdd((k - 1) as real, 1.0, n as real);
    }
  }

  /** getLinks' two passes: gather URLs and link bodies, then drop the empty ones. */
  method ComputeLinks(content: seq<Content>) returns (kept: seq<string>)
    ensures kept == LinksOf(content)
  {
    var links: seq<string> := [];
    for i := 0 to |content|
      invariant links == RawLinks(content[..i])
    {
      var c := content[i];
      if c.ctype == Text {
        links := links + FindUrls(c.body);
      } else if c.ctype == Links {
        links := links + [c.body];
      }
      assert content[..i + 1][..i] == content[..i];
    }
    assert content[..|content|] == content;
    kept := [];
    for i := 0 to |links|
      invariant kept == NonEmpty(links[..i])
    {
      if links[i] != [] {
        kept := kept + [links[i]];
      }
      assert links[..i + 1][..i] == links[..i];
    }
    assert links[..|links|] == links;
  }

  // ---------------------------------------------------------------------------
  // Profile
  // ---------------------------------------------------------------------------

  /**
   * One account on one network. The observable attributes are fixed once the
   * analyser has built the profile; the derived fields are memo slots filled on
   * first use. `rid` is the ledger uid the resolver attaches after loading.
   */
  class Profile {
    const uid: string
    const network: string
    const names: seq<string>
    const activityHours: seq<nat>
    const content: seq<Content>
    const locationSet: seq<Location>
    const profileLinks: seq<string>
    const interacted: seq<Profile>
    const followers: seq<Profile>
    const followedBy: seq<Profile>
    const grouped: seq<Profile>

    var rid: nat
    var primaryName: Option<string>
    var nameLength: nat
    var tactProfile: Option<seq<real>>
    var writingStyle: Option<map<string, real>>
    var linkList: Option<seq<string>>

    /** Each filled memo slot holds what its derived field computes from the attributes. */
    ghost predicate MemoValid()
      reads this
    {
      && (Truthy(primaryName) ==> primaryName == BestNameOf(names) && nameLength == |primaryName.value|)
      && (!Truthy(primaryName) ==> nameLength == 0)
      && (tactProfile.Some? ==> tactProfile == TimeProfileOf(activityHours))
      && (writingStyle.Some? ==> WritingStyleOf(content) == Signature(writingStyle.value))
      && (linkList.Some? ==> linkList.value == LinksOf(content))
    }

    constructor (uid: string, network: string, names: seq<string>, activityHours: seq<nat>,
                 content: seq<Content>, locationSet: seq<Location>, profileLinks: seq<string>,
                 interacted: seq<Profile>, followers: seq<Profile>, followedBy: seq<Profile>, grouped: seq<Profile>)
      ensures MemoValid()
      ensures this.uid == uid && this.network == network && this.names == names
      ensures this.activityHours == activityHours && this.content == content
      ensures this.locationSet == locationSet && this.profileLinks == profileLinks
      ensures this.interacted == interacted && this.followers == followers
      ensures this.followedBy == followedBy && this.grouped == grouped
      ensures rid == 0 && primaryName == None && nameLength == 0
      ensures tactProfile == None && writingStyle == None && linkList == None
    {
      this.uid, this.network, this.names := uid, network, names;
      this.activityHours, this.content := activityHours, content;
      this.locationSet, this.profileLinks := locationSet, profileLinks;
      this.interacted, this.followers, this.followedBy, this.grouped := interacted, followers, followedBy, grouped;
      rid, primaryName, nameLength := 0, None, 0;
      tactProfile, writingStyle, linkList := None, None, None;
    }

    /** bestname(): computed once, cached while non-empty; name_length follows a non-empty result. */
    method BestName() returns (r: Option<string>)
      requires MemoValid()
      modifies this`primaryName, this`nameLength
      ensures MemoValid()
      ensures r == BestNameOf(names) && primaryName == r
      ensures Truthy(old(primaryName)) ==> primaryName == old(primaryName) && nameLength == old(nameLength)
      ensures Truthy(r) ==> nameLength == |r.value|
    {
      if !Truthy(primaryName) {
        var best := ScanNames(names);
        primaryName := best;
        if Truthy(best) {
          nameLength := |best.value|;
        }
      }
      return primaryName;
    }

    /** timeProfile(): None without timestamps (nothing cached); otherwise the six bucket shares, cached. */
    method TimeProfile() returns (r: Option<seq<real>>)
      requires MemoValid()
      modifies this`tactProfile
      ensures MemoValid()
      ensures r == TimeProfileOf(activityHours)
      ensures r.Some? ==> tactProfile == r
      ensures old(tactProfile).Some? ==> tactProfile == old(tactProfile)
      ensures activityHours == [] ==> tactProfile == old(tactProfile)
    {
      if tactProfile.None? {
        var tact := ComputeTimeProfile(activityHours);
        if tact.None? {
          return None;
        }
        tactProfile := tact;
      }
      return tactProfile;
    }

    /**
     * getWritingStyle(): None for no TEXT item, ZeroTokens where the division by
     * the zero total would raise; nothing is cached in either case.
     */
    method GetWritingStyle() returns (r: Style)
      requires MemoValid()
      modifies this`writingStyle
      ensures MemoValid()
      ensures r == WritingStyleOf(content)
      ensures r.Signature? ==> writingStyle == Some(r.weights)
      ensures old(writingStyle).Some? ==> writingStyle == old(writingStyle)
      ensures !r.Signature? ==> writingStyle == old(writingStyle)
    {
      if writingStyle.Some? {
        return Signature(writingStyle.value);
      }
      r := ComputeWritingStyle(content);
      if r.Signature? {
        writingStyle := Some(r.weights);
      }
    }

    /** getLinks(): the links of the content; cached, though an empty list counts as not cached. */
    method GetLinks() returns (r: seq<string>)
      requires MemoValid()
      modifies this`linkList
      ensures MemoValid()
      ensures r == LinksOf(content)
      ensures linkList == Some(r)
      ensures old(linkList).Some? && old(linkList).value != [] ==> linkList == old(linkList)
    {
      if linkList.Some? && linkList.value != [] {
        return linkList.value;
      }
      r := ComputeLinks(content);
      linkList := Some(r);
    }
  }

  // ---------------------------------------------------------------------------
  // Adapters and the analysis driver
  // ---------------------------------------------------------------------------

  /** A per-network URL recogniser: its network name, is_valid_result and get_net_id. */
  datatype Adapter = Adapter(networkName: string, isValidResult: string -> bool, getNetId: string -> string)

  /** Adapter i is the first one that accepts the URL. */
  predicate FirstAccepting(adapters: seq<Adapter>, url: string, i: int)
  {
    0 <= i < |adapters| && adapters[i].isValidResult(url)
    && forall j :: 0 <= j < i ==> !adapters[j].isValidResult(url)
  }

  /** The candidate an adapter builds for a URL it accepts. */
  function Built(a: Adapter, url: string, name: string): Ledger.Candidate
  {
    Ledger.Candidate(a.networkName, a.getNetId(url), url, name)
  }

  /** url_to_record: a ledger candidate built by the first adapter that accepts the URL, if any. */
  function UrlToRecord(adapters: seq<Adapter>, url: string, name: string): (r: Option<Ledger.Candidate>)
    ensures r.None? <==> forall i :: 0 <= i < |adapters| ==> !adapters[i].isValidResult(url)
    ensures r.Some? ==> exists i :: FirstAccepting(adapters, url, i) && r.value == Built(adapters[i], url, name)
  {
    if adapters == [] then None
    else if adapters[0].isValidResult(url) then
      assert FirstAccepting(adapters, url, 0);
      Some(Built(adapters[0], url, name))
    else
      var r := UrlToRecord(adapters[1..], url, name);
      assert r.Some? ==> exists i :: FirstAccepting(adapters, url, i) && r.value == Built(adapters[i], url, name) by {
        if r.Some? {
          var i :| FirstAccepting(adapters[1..], url, i) && r.value == Built(adapters[1..][i], url, name);
          assert adapters[i + 1] == adapters[1..][i];
          assert FirstAccepting(adapters, url, i + 1);
        }
      }
      r
  }

  /** The search term a candidate carries: the best name, with None stored as the empty string. */
  function SearchTerm(best: Option<string>): string
  {
    if best.Some? then best.value else ""
  }

  /** What the network-specific analyse hook yields that run reads: the names and the profile links. */
  datatype Analysis = Analysis(names: seq<string>, profileLinks: seq<string>)

  /** The candidates run submits for a profile's links, in link order. */
  function Recognised(adapters: seq<Adapter>, links: seq<string>, name: string): seq<Ledger.Candidate>
  {
    if links == [] then []
    else Recognised(adapters, links[..|links| - 1], name)
         + (match UrlToRecord(adapters, links[|links| - 1], name)
            case Some(c) => [c]
            case None => [])
  }

  function LinkCandidates(adapters: seq<Adapter>, a: Analysis): seq<Ledger.Candidate>
  {
    Recognised(adapters, a.profileLinks, SearchTerm(BestNameOf(a.names)))
  }

  /** run analyses a record when it is on the analyser's network and a payload exists for its uid. */
  predicate Analysed(r: Ledger.Record, networkName: string, raw: map<nat, string>)
  {
    r.network == networkName && r.uid in raw
  }

  /** Record r is analysed and its profile's best name is the non-empty n. */
  predicate NamedBy(r: Ledger.Record, networkName: string, raw: map<nat, string>,
                    analyse: (string, Ledger.Record) -> Analysis, n: string)
  {
    Analysed(r, networkName, raw) && BestNameOf(analyse(raw[r.uid], r).names) == Some(n) && n != ""
  }

  /** The ledger knows the candidate, and unless it is the origin itself, holds the edge origin -> its uid. */
  ghost predicate Linked(s: Ledger.State, origin: nat, c: Ledger.Candidate)
  {
    match Ledger.FindMatch(s.records, c)
    case None => false
    case Some(j) => s.records[j].uid != origin ==> Ledger.HasEdge(s.graph, origin, s.records[j].uid)
  }

  /** t extends s: records only appended, edges only added. */
  ghost predicate Grows(s: Ledger.State, t: Ledger.State)
  {
    s.records <= t.records && forall x, y :: Ledger.HasEdge(s.graph, x, y) ==> Ledger.HasEdge(t.graph, x, y)
  }

  lemma LinkedPersists(s: Ledger.State, t: Ledger.State, origin: nat, c: Ledger.Candidate)
    requires Grows(s, t) && Linked(s, origin, c)
    ensures Linked(t, origin, c)
  {
    var j := Ledger.FindMatch(s.records, c).value;
    assert t.records[j] == s.records[j];
  }

  /** When record r is analysed, every candidate its profile links to is linked from it. */
  ghost predicate LinksKept(s: Ledger.State, networkName: string, adapters: seq<Adapter>,
                            raw: map<nat, string>, analyse: (string, Ledger.Record) -> Analysis, r: Ledger.Record)
  {
    Analysed(r, networkName, raw) ==>
      forall c :: c in LinkCandidates(adapters, analyse(raw[r.uid], r)) ==> Linked(s, r.uid, c)
  }

  lemma LinksKeptPersists(s: Ledger.State, t: Ledger.State, networkName: string, adapters: seq<Adapter>,
                          raw: map<nat, string>, analyse: (string, Ledger.Record) -> Analysis, r: Ledger.Record)
    requires Grows(s, t) && LinksKept(s, networkName, adapters, raw, analyse, r)
    ensures LinksKept(t, networkName, adapters, raw, analyse, r)
  {
    if Analysed(r, networkName, raw) {
      forall c | c in LinkCandidates(adapters, analyse(raw[r.uid], r)) ensures Linked(t, r.uid, c) {
        LinkedPersists(s, t, r.uid, c);
      }
    }
  }

  /** After add_record(c), the uid it returned is that of the first record with c's identity. */
  lemma AddedRecordFound(s: Ledger.State, c: Ledger.Candidate)
    ensures var (s1, u) := Ledger.AddedRecord(s, c);
      Ledger.FindMatch(s1.records, c).Some? && s1.records[Ledger.FindMatch(s1.records, c).value].uid == u
  {
    var (s1, u) := Ledger.AddedRecord(s, c);
    if Ledger.FindMatch(s.records, c).None? {
      assert Ledger.SameIdentity(s1.records[|s.records|], c);
    }
  }

  /** Raw payload uids above the counter: the uids new records can still take and have analysed. */
  function RawAbove(raw: set<nat>, c: nat): nat
  {
    |set u | u in raw && u > c|
  }

  /** Records from index i on whose uid has a payload. */
  function RawFrom(records: seq<Ledger.Record>, i: nat, raw: set<nat>): nat
    decreases |records| - i
  {
    if i >= |records| then 0 else (if records[i].uid in raw then 1 else 0) + RawFrom(records, i + 1, raw)
  }

  lemma RawAboveStep(raw: set<nat>, c: nat)
    ensures RawAbove(raw, c) == RawAbove(raw, c + 1) + (if c + 1 in raw then 1 else 0)
  {
    var above := set u | u in raw && u > c;
    var rest := set u | u in raw && u > c + 1;
    if c + 1 in raw {
      assert above == rest + {c + 1};
    } else {
      assert above == rest;
    }
  }

  lemma {:induction false} RawFromAppend(records: seq<Ledger.Record>, r: Ledger.Record, i: nat, raw: set<nat>)
    requires i <= |records|
    ensures RawFrom(records + [r], i, raw) == RawFrom(records, i, raw) + (if r.uid in raw then 1 else 0)
    decreases |records| - i
  {
    if i < |records| {
      assert (records + [r])[i] == records[i];
      RawFromAppend(records, r, i + 1, raw);
    }
  }

  /**
   * One add_record call keeps RawAbove + RawFrom fixed: a new record takes uid
   * curuid + 1, which leaves the first count exactly when it enters the second.
   */
  lemma AddRecordKeepsMeasure(s: Ledger.State, c: Ledger.Candidate, i: nat, raw: set<nat>)
    requires i <= |s.records|
    ensures var s1 := Ledger.AddedRecord(s, c).0;
      RawAbove(raw, s1.curuid) + RawFrom(s1.records, i, raw) == RawAbove(raw, s.curuid) + RawFrom(s.records, i, raw)
  {
    if Ledger.FindMatch(s.records, c).None? {
      RawAboveStep(raw, s.curuid);
      RawFromAppend(s.records, Ledger.WithUid(c, s.curuid + 1), i, raw);
    }
  }

  /** One recognised link on the ledger: add_record(c), then add_match(origin, the uid add_record returned). */
  function LinkedOne(s: Ledger.State, origin: nat, c: Ledger.Candidate): Ledger.State
  {
    var (s1, u) := Ledger.AddedRecord(s, c);
    Ledger.AddedMatch(s1, origin, u)
  }

  /** run's inner loop on the ledger: the candidates cs linked from origin, in order. */
  function LinkAll(s: Ledger.State, origin: nat, cs: seq<Ledger.Candidate>): (t: Ledger.State)
    ensures s.records <= t.records
  {
    if cs == [] then s else LinkedOne(LinkAll(s, origin, cs[..|cs| - 1]), origin, cs[|cs| - 1])
  }

  /** Candidate c is on record and its first record carries uid u. */
  predicate FoundAs(records: seq<Ledger.Record>, c: Ledger.Candidate, u: nat)
  {
    Ledger.FindMatch(records, c).Some? && records[Ledger.FindMatch(records, c).value].uid == u
  }

  /** Appending records keeps the first record of a known identity. */
  lemma FoundAsPersists(rs: seq<Ledger.Record>, ts: seq<Ledger.Record>, c: Ledger.Candidate, u: nat)
    requires rs <= ts && FoundAs(rs, c, u)
    ensures FoundAs(ts, c, u)
  {
    var j := Ledger.FindMatch(rs, c).value;
    assert ts[j] == rs[j];
  }

  /**
   * Linking adds nothing but what the candidates ask for: the old records stay
   * as a prefix, every new record has the identity of one of the candidates,
   * and every new edge runs from the origin to the uid some candidate is on
   * record under.
   */
  lemma {:induction false} LinkAllOnly(s: Ledger.State, origin: nat, cs: seq<Ledger.Candidate>)
    ensures var t := LinkAll(s, origin, cs);
      && s.records <= t.records
      && (forall k :: |s.records| <= k < |t.records| ==> exists c :: c in cs && Ledger.SameIdentity(t.records[k], c))
      && (forall x, y :: Ledger.HasEdge(t.graph, x, y) ==>
            Ledger.HasEdge(s.graph, x, y) || (x == origin && exists c :: c in cs && FoundAs(t.records, c, y)))
  {
    if cs != [] {
      var init := cs[..|cs| - 1];
      var c := cs[|cs| - 1];
      var m := LinkAll(s, origin, init);
      LinkAllOnly(s, origin, init);
      var (m1, u) := Ledger.AddedRecord(m, c);
      var t := Ledger.AddedMatch(m1, origin, u);
      assert t == LinkAll(s, origin, cs);
      AddedRecordFound(m, c);
      forall k | |s.records| <= k < |t.records| ensures exists c' :: c' in cs && Ledger.SameIdentity(t.records[k], c') {
        if k < |m.records| {
          var c' :| c' in init && Ledger.SameIdentity(m.records[k], c');
          assert t.records[k] == m.records[k];
        } else {
          assert Ledger.SameIdentity(t.records[k], c);
        }
      }
      forall x, y | Ledger.HasEdge(t.graph, x, y)
        ensures Ledger.HasEdge(s.graph, x, y) || (x == origin && exists c' :: c' in cs && FoundAs(t.records, c', y))
      {
        if Ledger.HasEdge(m.graph, x, y) {
          if !Ledger.HasEdge(s.graph, x, y) {
            var c' :| c' in init && FoundAs(m.records, c', y);
            FoundAsPersists(m.records, t.records, c', y);
          }
        } else {
          assert x == origin && y == u && FoundAs(t.records, c, y);
        }
      }
    }
  }

  /** Linking keeps the termination measure of the walk, since each add_record does. */
  lemma {:induction false} LinkAllKeepsMeasure(s: Ledger.State, origin: nat, cs: seq<Ledger.Candidate>, from: nat, raw: set<nat>)
    requires from <= |s.records|
    ensures var t := LinkAll(s, origin, cs);
      && s.records <= t.records
      && RawAbove(raw, t.curuid) + RawFrom(t.records, from, raw) == RawAbove(raw, s.curuid) + RawFrom(s.records, from, raw)
  {
    if cs != [] {
      var m := LinkAll(s, origin, cs[..|cs| - 1]);
      LinkAllKeepsMeasure(s, origin, cs[..|cs| - 1], from, raw);
      AddRecordKeepsMeasure(m, cs[|cs| - 1], from, raw);
    }
  }

  /** One recognised link: add_record(candidate), then add_match(origin, returned uid). */
  method LinkOne(ps: Ledger.ProfileStore, origin: nat, c: Ledger.Candidate, ghost from: nat, ghost raw: set<nat>)
    requires ps.Valid() && from <= |ps.records|
    modifies ps
    ensures ps.Valid()
    ensures Grows(old(ps.Value()), ps.Value())
    ensures Ledger.WellNumbered(old(ps.Value())) ==> Ledger.WellNumbered(ps.Value())
    ensures RawAbove(raw, ps.curuid) + RawFrom(ps.records, from, raw)
         == old(RawAbove(raw, ps.curuid) + RawFrom(ps.records, from, raw))
    ensures ps.Value() == LinkedOne(old(ps.Value()), origin, c)
    ensures Ledger.WellNumbered(old(ps.Value())) && Ledger.OnRecord(old(ps.records), origin) ==>
      Linked(ps.Value(), origin, c)
  {
    ghost var s := ps.Value();
    var lid := ps.AddRecord(c);
    ps.AddMatch(origin, lid);
    LinkedOneFacts(s, origin, c, from, raw);
  }

  /** What one recognised link does to the ledger: it grows, stays well numbered, keeps the measure and links c. */
  lemma LinkedOneFacts(s: Ledger.State, origin: nat, c: Ledger.Candidate, from: nat, raw: set<nat>)
    requires Ledger.GraphValid(s.graph) && from <= |s.records|
    ensures var t := LinkedOne(s, origin, c);
      && Grows(s, t)
      && (Ledger.WellNumbered(s) ==> Ledger.WellNumbered(t))
      && RawAbove(raw, t.curuid) + RawFrom(t.records, from, raw) == RawAbove(raw, s.curuid) + RawFrom(s.records, from, raw)
      && (Ledger.WellNumbered(s) && Ledger.OnRecord(s.records, origin) ==> Linked(t, origin, c))
  {
    AddRecordKeepsMeasure(s, c, from, raw);
    AddedRecordFound(s, c);
    if Ledger.WellNumbered(s) {
      Ledger.AddRecordWellNumbered(s, c);
    }
    var (mid, lid) := Ledger.AddedRecord(s, c);
    if Ledger.WellNumbered(s) && Ledger.OnRecord(s.records, origin) && origin != lid {
      var k :| 0 <= k < |s.records| && s.records[k].uid == origin;
      assert mid.records[k] == s.records[k];
      Ledger.AddMatchKnown(mid, origin, lid);
    }
    Ledger.AddMatchFrame(mid, origin, lid);
  }

  /**
   * Where run's inner loop stands after the first l links: the ledger has
   * only grown, stays well numbered, keeps its termination measure, and (when
   * the origin was on record) holds a match from the origin to every
   * candidate recognised so far.
   */
  ghost predicate LinkProgress(s0: Ledger.State, s: Ledger.State, origin: nat, adapters: seq<Adapter>, links: seq<string>,
                               name: string, from: nat, raw: set<nat>, measure: nat, l: nat)
    requires l <= |links|
  {
    && from <= |s.records|
    && Grows(s0, s)
    && (Ledger.WellNumbered(s0) ==> Ledger.WellNumbered(s))
    && RawAbove(raw, s.curuid) + RawFrom(s.records, from, raw) == measure
    && (Ledger.WellNumbered(s0) && Ledger.OnRecord(s0.records, origin) ==>
          Ledger.OnRecord(s.records, origin)
          && forall c :: c in Recognised(adapters, links[..l], name) ==> Linked(s, origin, c))
  }

  lemma RecognisedNext(adapters: seq<Adapter>, links: seq<string>, name: string, l: nat)
    requires l < |links|
    ensures UrlToRecord(adapters, links[l], name).None? ==>
      Recognised(adapters, links[..l + 1], name) == Recognised(adapters, links[..l], name)
    ensures UrlToRecord(adapters, links[l], name).Some? ==>
      Recognised(adapters, links[..l + 1], name)
      == Recognised(adapters, links[..l], name) + [UrlToRecord(adapters, links[l], name).value]
  {
    assert links[..l + 1][..l] == links[..l];
    assert links[..l + 1][l] == links[l];
  }

  lemma LinkAllNext(s: Ledger.State, origin: nat, cs: seq<Ledger.Candidate>, c: Ledger.Candidate)
    ensures LinkAll(s, origin, cs + [c]) == LinkedOne(LinkAll(s, origin, cs), origin, c)
  {
    assert (cs + [c])[..|cs|] == cs;
  }

  /** One pass of run's inner loop: link l is looked up and, if recognised, added and matched. */
  method LinkStep(ps: Ledger.ProfileStore, origin: nat, adapters: seq<Adapter>, links: seq<string>, name: string,
                  ghost from: nat, ghost raw: set<nat>, ghost s0: Ledger.State, ghost measure: nat, l: nat)
    requires ps.Valid() && l < |links|
    requires ps.Value() == LinkAll(s0, origin, Recognised(adapters, links[..l], name))
    requires LinkProgress(s0, ps.Value(), origin, adapters, links, name, from, raw, measure, l)
    modifies ps
    ensures ps.Valid()
    ensures ps.Value() == LinkAll(s0, origin, Recognised(adapters, links[..l + 1], name))
    ensures LinkProgress(s0, ps.Value(), origin, adapters, links, name, from, raw, measure, l + 1)
  {
    ghost var step := ps.Value();
    ghost var done := Recognised(adapters, links[..l], name);
    var rec := UrlToRecord(adapters, links[l], name);
    RecognisedNext(adapters, links, name, l);
    if rec.Some? {
      LinkOne(ps, origin, rec.value, from, raw);
      LinkAllNext(s0, origin, done, rec.value);
      assert Recognised(adapters, links[..l + 1], name) == done + [rec.value];
    } else {
      assert Recognised(adapters, links[..l + 1], name) == done;
    }
    LinkProgressNext(s0, step, ps.Value(), origin, adapters, links, name, from, raw, measure, l);
  }

  /** The inner loop's invariant survives link l, given what LinkOne promised about it. */
  lemma LinkProgressNext(s0: Ledger.State, step: Ledger.State, t: Ledger.State, origin: nat, adapters: seq<Adapter>,
                         links: seq<string>, name: string, from: nat, raw: set<nat>, measure: nat, l: nat)
    requires l < |links| && LinkProgress(s0, step, origin, adapters, links, name, from, raw, measure, l)
    requires UrlToRecord(adapters, links[l], name).None? ==> t == step
    requires Grows(step, t) && (Ledger.WellNumbered(step) ==> Ledger.WellNumbered(t))
    requires RawAbove(raw, t.curuid) + RawFrom(t.records, from, raw) == RawAbove(raw, step.curuid) + RawFrom(step.records, from, raw)
    requires UrlToRecord(adapters, links[l], name).Some? && Ledger.WellNumbered(step) && Ledger.OnRecord(step.records, origin) ==>
      Linked(t, origin, UrlToRecord(adapters, links[l], name).value)
    ensures LinkProgress(s0, t, origin, adapters, links, name, from, raw, measure, l + 1)
  {
    if Ledger.WellNumbered(s0) && Ledger.OnRecord(s0.records, origin) {
      LinkedNext(step, t, origin, adapters, links, name, l);
    }
    GrowsTrans(s0, step, t);
  }

  /** The candidates recognised among the first l + 1 links stay linked from the origin once link l's is. */
  lemma LinkedNext(step: Ledger.State, t: Ledger.State, origin: nat, adapters: seq<Adapter>,
                   links: seq<string>, name: string, l: nat)
    requires l < |links| && Grows(step, t) && Ledger.OnRecord(step.records, origin)
    requires forall c :: c in Recognised(adapters, links[..l], name) ==> Linked(step, origin, c)
    requires UrlToRecord(adapters, links[l], name).Some? ==> Linked(t, origin, UrlToRecord(adapters, links[l], name).value)
    ensures Ledger.OnRecord(t.records, origin)
    ensures forall c :: c in Recognised(adapters, links[..l + 1], name) ==> Linked(t, origin, c)
  {
    RecognisedNext(adapters, links, name, l);
    forall c | c in Recognised(adapters, links[..l], name)
      ensures Linked(t, origin, c)
    {
      LinkedPersists(step, t, origin, c);
    }
    var k :| 0 <= k < |step.records| && step.records[k].uid == origin;
    assert t.records[k] == step.records[k];
  }

  lemma GrowsTrans(r: Ledger.State, s: Ledger.State, t: Ledger.State)
    requires Grows(r, s) && Grows(s, t)
    ensures Grows(r, t)
  {
    forall x, y | Ledger.HasEdge(r.graph, x, y) ensures Ledger.HasEdge(t.graph, x, y) {
    }
  }

  /** run's inner loop over one profile's links: every link an adapter recognises is added and matched to the origin. */
  method LinkProfile(ps: Ledger.ProfileStore, origin: nat, adapters: seq<Adapter>, links: seq<string>, name: string,
                     ghost from: nat, ghost raw: set<nat>)
    requires ps.Valid() && from <= |ps.records|
    modifies ps
    ensures ps.Valid()
    ensures Grows(old(ps.Value()), ps.Value())
    ensures Ledger.WellNumbered(old(ps.Value())) ==> Ledger.WellNumbered(ps.Value())
    ensures RawAbove(raw, ps.curuid) + RawFrom(ps.records, from, raw)
         == old(RawAbove(raw, ps.curuid) + RawFrom(ps.records, from, raw))
    ensures ps.Value() == LinkAll(old(ps.Value()), origin, Recognised(adapters, links, name))
    ensures Ledger.WellNumbered(old(ps.Value())) && Ledger.OnRecord(old(ps.records), origin) ==>
      forall c :: c in Recognised(adapters, links, name) ==> Linked(ps.Value(), origin, c)
  {
    ghost var s0 := ps.Value();
    ghost var measure := RawAbove(raw, ps.curuid) + RawFrom(ps.records, from, raw);
    for l := 0 to |links|
      invariant ps.Valid()
      invariant ps.Value() == LinkAll(s0, origin, Recognised(adapters, links[..l], name))
      invariant LinkProgress(s0, ps.Value(), origin, adapters, links, name, from, raw, measure, l)
    {
      LinkStep(ps, origin, adapters, links, name, from, raw, s0, measure, l);
    }
    assert links[..|links|] == links;
  }

  /**
   * Where run's outer loop stands after the first i records: the ledger has
   * only grown and stays well numbered, every analysed record among them has
   * its recognised links matched, and the names file holds exactly their
   * non-empty best names.
   */
  ghost predicate RunProgress(s0: Ledger.State, s: Ledger.State, networkName: string, adapters: seq<Adapter>,
                              raw: map<nat, string>, analyse: (string, Ledger.Record) -> Analysis, corpus: set<string>, i: nat)
  {
    && i <= |s.records|
    && Grows(s0, s)
    && (Ledger.WellNumbered(s0) ==> Ledger.WellNumbered(s))
    && (Ledger.WellNumbered(s0) ==>
          forall k :: 0 <= k < i ==> LinksKept(s, networkName, adapters, raw, analyse, s.records[k]))
    && forall n :: n in corpus <==> exists k :: 0 <= k < i && NamedBy(s.records[k], networkName, raw, analyse, n)
  }

  lemma RunProgressStart(s0: Ledger.State, networkName: string, adapters: seq<Adapter>,
                         raw: map<nat, string>, analyse: (string, Ledger.Record) -> Analysis)
    ensures RunProgress(s0, s0, networkName, adapters, raw, analyse, {}, 0)
  {
  }

  /** Every record before i + 1 that was analysed has its links linked, once record i's are. */
  lemma RunLinksStep(s: Ledger.State, t: Ledger.State, networkName: string, adapters: seq<Adapter>,
                     raw: map<nat, string>, analyse: (string, Ledger.Record) -> Analysis, i: nat)
    requires i < |s.records| && Grows(s, t)
    requires forall k :: 0 <= k < i ==> LinksKept(s, networkName, adapters, raw, analyse, s.records[k])
    requires LinksKept(t, networkName, adapters, raw, analyse, s.records[i])
    ensures forall k :: 0 <= k < i + 1 ==> LinksKept(t, networkName, adapters, raw, analyse, t.records[k])
  {
    forall k | 0 <= k < i + 1 ensures LinksKept(t, networkName, adapters, raw, analyse, t.records[k]) {
      assert t.records[k] == s.records[k];
      if k < i {
        LinksKeptPersists(s, t, networkName, adapters, raw, analyse, s.records[k]);
      }
    }
  }

  /** The names reported after record i are those before it plus record i's own. */
  lemma RunCorpusStep(s: Ledger.State, t: Ledger.State, networkName: string,
                      raw: map<nat, string>, analyse: (string, Ledger.Record) -> Analysis,
                      corpus: set<string>, corpus': set<string>, i: nat)
    requires i < |s.records| && s.records <= t.records
    requires forall n :: n in corpus <==> exists k :: 0 <= k < i && NamedBy(s.records[k], networkName, raw, analyse, n)
    requires forall n :: n in corpus' <==> n in corpus || NamedBy(s.records[i], networkName, raw, analyse, n)
    ensures forall n :: n in corpus' <==> exists k :: 0 <= k < i + 1 && NamedBy(t.records[k], networkName, raw, analyse, n)
  {
    forall k | 0 <= k <= i ensures t.records[k] == s.records[k] {
    }
    forall n ensures n in corpus' <==> exists k :: 0 <= k < i + 1 && NamedBy(t.records[k], networkName, raw, analyse, n) {
      if n in corpus' && !(n in corpus) {
        assert NamedBy(t.records[i], networkName, raw, analyse, n);
      }
    }
  }

  /** The outer loop's invariant survives one record, given what handling that record did. */
  lemma RunProgressStep(s0: Ledger.State, s: Ledger.State, t: Ledger.State, networkName: string, adapters: seq<Adapter>,
                        raw: map<nat, string>, analyse: (string, Ledger.Record) -> Analysis,
                        corpus: set<string>, corpus': set<string>, i: nat)
    requires RunProgress(s0, s, networkName, adapters, raw, analyse, corpus, i) && i < |s.records|
    requires Grows(s, t) && (Ledger.WellNumbered(s) ==> Ledger.WellNumbered(t))
    requires Ledger.WellNumbered(s) ==> LinksKept(t, networkName, adapters, raw, analyse, s.records[i])
    requires forall n :: n in corpus' <==> n in corpus || NamedBy(s.records[i], networkName, raw, analyse, n)
    ensures RunProgress(s0, t, networkName, adapters, raw, analyse, corpus', i + 1)
  {
    if Ledger.WellNumbered(s0) {
      RunLinksStep(s, t, networkName, adapters, raw, analyse, i);
    }
    RunCorpusStep(s, t, networkName, raw, analyse, corpus, corpus', i);
  }

  /** What run does to the ledger for record i: when it is analysed, link its profile's recognised candidates from it. */
  function AnalyseStep(s: Ledger.State, networkName: string, adapters: seq<Adapter>,
                       raw: map<nat, string>, analyse: (string, Ledger.Record) -> Analysis, i: nat): (t: Ledger.State)
    requires i < |s.records|
    ensures s.records <= t.records
  {
    var r := s.records[i];
    if Analysed(r, networkName, raw) then LinkAll(s, r.uid, LinkCandidates(adapters, analyse(raw[r.uid], r))) else s
  }

  /**
   * Handling record i only appends records, and the walk's measure (payloads
   * not yet reached) never grows and shrinks unless nothing was appended.
   */
  lemma AnalyseStepMeasure(s: Ledger.State, networkName: string, adapters: seq<Adapter>,
                           raw: map<nat, string>, analyse: (string, Ledger.Record) -> Analysis, i: nat)
    requires i < |s.records|
    ensures var t := AnalyseStep(s, networkName, adapters, raw, analyse, i);
      var before := RawAbove(raw.Keys, s.curuid) + RawFrom(s.records, i, raw.Keys);
      var after := RawAbove(raw.Keys, t.curuid) + RawFrom(t.records, i + 1, raw.Keys);
      s.records <= t.records && (after < before || (after == before && |t.records| == |s.records|))
  {
    var r := s.records[i];
    if Analysed(r, networkName, raw) {
      LinkAllKeepsMeasure(s, r.uid, LinkCandidates(adapters, analyse(raw[r.uid], r)), i + 1, raw.Keys);
    }
  }

  /** run's walk over the ledger from record i on, records appended during the walk included. */
  function Walk(s: Ledger.State, networkName: string, adapters: seq<Adapter>,
                raw: map<nat, string>, analyse: (string, Ledger.Record) -> Analysis, i: nat): Ledger.State
    requires i <= |s.records|
    decreases RawAbove(raw.Keys, s.curuid) + RawFrom(s.records, i, raw.Keys), |s.records| - i
  {
    if i == |s.records| then s
    else
      AnalyseStepMeasure(s, networkName, adapters, raw, analyse, i);
      Walk(AnalyseStep(s, networkName, adapters, raw, analyse, i), networkName, adapters, raw, analyse, i + 1)
  }

  lemma WalkStep(s: Ledger.State, networkName: string, adapters: seq<Adapter>,
                 raw: map<nat, string>, analyse: (string, Ledger.Record) -> Analysis, i: nat)
    requires i < |s.records|
    ensures Walk(s, networkName, adapters, raw, analyse, i)
         == Walk(AnalyseStep(s, networkName, adapters, raw, analyse, i), networkName, adapters, raw, analyse, i + 1)
  {
    AnalyseStepMeasure(s, networkName, adapters, raw, analyse, i);
  }

  /** c is one of the candidates of the analysed record at index k. */
  ghost predicate CandidateAt(records: seq<Ledger.Record>, networkName: string, adapters: seq<Adapter>,
                              raw: map<nat, string>, analyse: (string, Ledger.Record) -> Analysis, k: nat, c: Ledger.Candidate)
  {
    && k < |records|
    && Analysed(records[k], networkName, raw)
    && c in LinkCandidates(adapters, analyse(raw[records[k].uid], records[k]))
  }

  /** Record r has the identity of a candidate of an analysed record of records at or after index i. */
  ghost predicate IdentityOfCandidate(r: Ledger.Record, records: seq<Ledger.Record>, networkName: string, adapters: seq<Adapter>,
                                      raw: map<nat, string>, analyse: (string, Ledger.Record) -> Analysis, i: nat)
  {
    exists k: nat, c :: i <= k && CandidateAt(records, networkName, adapters, raw, analyse, k, c) && Ledger.SameIdentity(r, c)
  }

  /** Every record of w from index n on has the identity of a candidate of an analysed record at or after i. */
  ghost predicate RecordsExplained(n: nat, w: Ledger.State, networkName: string, adapters: seq<Adapter>,
                                   raw: map<nat, string>, analyse: (string, Ledger.Record) -> Analysis, i: nat)
  {
    forall j :: n <= j < |w.records| ==> IdentityOfCandidate(w.records[j], w.records, networkName, adapters, raw, analyse, i)
  }

  /** Every edge of w not in g runs from an analysed record at or after i to the uid one of its candidates is on record under. */
  ghost predicate EdgesExplained(g: Ledger.Graph, w: Ledger.State, networkName: string, adapters: seq<Adapter>,
                                 raw: map<nat, string>, analyse: (string, Ledger.Record) -> Analysis, i: nat)
  {
    forall x, y :: Ledger.HasEdge(w.graph, x, y) && !Ledger.HasEdge(g, x, y) ==>
      exists k: nat, c :: i <= k && CandidateAt(w.records, networkName, adapters, raw, analyse, k, c)
                          && x == w.records[k].uid && FoundAs(w.records, c, y)
  }

  /**
   * The walk from record i adds nothing unasked for: the old records stay as
   * a prefix, every new record has the identity of a candidate of an analysed
   * record at or after i, and every new edge runs from such a record's uid to
   * the uid one of its candidates is on record under.
   */
  lemma {:induction false} WalkOnly(s: Ledger.State, networkName: string, adapters: seq<Adapter>,
                                    raw: map<nat, string>, analyse: (string, Ledger.Record) -> Analysis, i: nat)
    requires i <= |s.records|
    ensures var w := Walk(s, networkName, adapters, raw, analyse, i);
      && s.records <= w.records
      && RecordsExplained(|s.records|, w, networkName, adapters, raw, analyse, i)
      && EdgesExplained(s.graph, w, networkName, adapters, raw, analyse, i)
    decreases RawAbove(raw.Keys, s.curuid) + RawFrom(s.records, i, raw.Keys), |s.records| - i
  {
    if i < |s.records| {
      var w := Walk(s, networkName, adapters, raw, analyse, i);
      AnalyseStepMeasure(s, networkName, adapters, raw, analyse, i);
      var t := AnalyseStep(s, networkName, adapters, raw, analyse, i);
      WalkStep(s, networkName, adapters, raw, analyse, i);
      WalkOnly(t, networkName, adapters, raw, analyse, i + 1);
      ExplainedWeaken(|t.records|, t.graph, w, networkName, adapters, raw, analyse, i);
      StepExplained(s, t, w, networkName, adapters, raw, analyse, i);
      RecordsJoin(|s.records|, |t.records|, w, networkName, adapters, raw, analyse, i);
      EdgesJoin(s.graph, t.graph, w, networkName, adapters, raw, analyse, i);
    }
  }

  /** What handling record i adds is explained by that record's candidates. */
  lemma StepExplained(s: Ledger.State, t: Ledger.State, w: Ledger.State, networkName: string, adapters: seq<Adapter>,
                      raw: map<nat, string>, analyse: (string, Ledger.Record) -> Analysis, i: nat)
    requires i < |s.records| && t == AnalyseStep(s, networkName, adapters, raw, analyse, i) && t.records <= w.records
    ensures forall j :: |s.records| <= j < |t.records| ==>
      IdentityOfCandidate(w.records[j], w.records, networkName, adapters, raw, analyse, i)
    ensures forall x, y :: Ledger.HasEdge(t.graph, x, y) && !Ledger.HasEdge(s.graph, x, y) ==>
      exists k: nat, c :: i <= k && CandidateAt(w.records, networkName, adapters, raw, analyse, k, c)
                          && x == w.records[k].uid && FoundAs(w.records, c, y)
  {
    var r := s.records[i];
    assert w.records[i] == r;
    if Analysed(r, networkName, raw) {
      var cs := LinkCandidates(adapters, analyse(raw[r.uid], r));
      LinkAllOnly(s, r.uid, cs);
      forall j | |s.records| <= j < |t.records|
        ensures IdentityOfCandidate(w.records[j], w.records, networkName, adapters, raw, analyse, i)
      {
        var c :| c in cs && Ledger.SameIdentity(t.records[j], c);
        assert w.records[j] == t.records[j];
        assert CandidateAt(w.records, networkName, adapters, raw, analyse, i, c);
      }
      forall x, y | Ledger.HasEdge(t.graph, x, y) && !Ledger.HasEdge(s.graph, x, y)
        ensures exists k: nat, c :: i <= k && CandidateAt(w.records, networkName, adapters, raw, analyse, k, c)
                                    && x == w.records[k].uid && FoundAs(w.records, c, y)
      {
        var c :| c in cs && FoundAs(t.records, c, y);
        FoundAsPersists(t.records, w.records, c, y);
        assert CandidateAt(w.records, networkName, adapters, raw, analyse, i, c);
      }
    }
  }

  lemma RecordsJoin(n1: nat, n2: nat, w: Ledger.State, networkName: string, adapters: seq<Adapter>,
                    raw: map<nat, string>, analyse: (string, Ledger.Record) -> Analysis, i: nat)
    requires forall j :: n1 <= j < n2 && j < |w.records| ==>
      IdentityOfCandidate(w.records[j], w.records, networkName, adapters, raw, analyse, i)
    requires RecordsExplained(n2, w, networkName, adapters, raw, analyse, i)
    ensures RecordsExplained(n1, w, networkName, adapters, raw, analyse, i)
  {
  }

  lemma EdgesJoin(g1: Ledger.Graph, g2: Ledger.Graph, w: Ledger.State, networkName: string, adapters: seq<Adapter>,
                  raw: map<nat, string>, analyse: (string, Ledger.Record) -> Analysis, i: nat)
    requires forall x, y :: Ledger.HasEdge(g2, x, y) && !Ledger.HasEdge(g1, x, y) ==>
      exists k: nat, c :: i <= k && CandidateAt(w.records, networkName, adapters, raw, analyse, k, c)
                          && x == w.records[k].uid && FoundAs(w.records, c, y)
    requires EdgesExplained(g2, w, networkName, adapters, raw, analyse, i)
    ensures EdgesExplained(g1, w, networkName, adapters, raw, analyse, i)
  {
  }

  /** What is explained from i + 1 on is explained from i on. */
  lemma ExplainedWeaken(n: nat, g: Ledger.Graph, w: Ledger.State, networkName: string, adapters: seq<Adapter>,
                        raw: map<nat, string>, analyse: (string, Ledger.Record) -> Analysis, i: nat)
    requires RecordsExplained(n, w, networkName, adapters, raw, analyse, i + 1)
    requires EdgesExplained(g, w, networkName, adapters, raw, analyse, i + 1)
    ensures RecordsExplained(n, w, networkName, adapters, raw, analyse, i)
    ensures EdgesExplained(g, w, networkName, adapters, raw, analyse, i)
  {
    forall j | n <= j < |w.records|
      ensures IdentityOfCandidate(w.records[j], w.records, networkName, adapters, raw, analyse, i)
    {
      assert IdentityOfCandidate(w.records[j], w.records, networkName, adapters, raw, analyse, i + 1);
      var k: nat, c :| i + 1 <= k && CandidateAt(w.records, networkName, adapters, raw, analyse, k, c)
                       && Ledger.SameIdentity(w.records[j], c);
    }
    forall x, y | Ledger.HasEdge(w.graph, x, y) && !Ledger.HasEdge(g, x, y)
      ensures exists k: nat, c :: i <= k && CandidateAt(w.records, networkName, adapters, raw, analyse, k, c)
                                  && x == w.records[k].uid && FoundAs(w.records, c, y)
    {
      var k: nat, c :| i + 1 <= k && CandidateAt(w.records, networkName, adapters, raw, analyse, k, c)
                       && x == w.records[k].uid && FoundAs(w.records, c, y);
    }
  }

  /**
   * run's handling of one record: when it is on this network with a payload,
   * analyse it, report its best name if non-empty, and link its links.
   */
  method AnalyseOne(ps: Ledger.ProfileStore, networkName: string, adapters: seq<Adapter>,
                    raw: map<nat, string>, analyse: (string, Ledger.Record) -> Analysis, i: nat) returns (name: Option<string>)
    requires ps.Valid() && i < |ps.records|
    modifies ps
    ensures ps.Valid()
    ensures Grows(old(ps.Value()), ps.Value())
    ensures Ledger.WellNumbered(old(ps.Value())) ==> Ledger.WellNumbered(ps.Value())
    ensures RawAbove(raw.Keys, ps.curuid) + RawFrom(ps.records, i + 1, raw.Keys)
         == old(RawAbove(raw.Keys, ps.curuid) + RawFrom(ps.records, i + 1, raw.Keys))
    ensures ps.Value() == AnalyseStep(old(ps.Value()), networkName, adapters, raw, analyse, i)
    ensures !Analysed(old(ps.records[i]), networkName, raw) ==> ps.Value() == old(ps.Value())
    ensures Ledger.WellNumbered(old(ps.Value())) && Analysed(old(ps.records[i]), networkName, raw) ==>
      forall c :: c in LinkCandidates(adapters, analyse(raw[old(ps.records[i]).uid], old(ps.records[i]))) ==>
        Linked(ps.Value(), old(ps.records[i]).uid, c)
    ensures forall n :: name == Some(n) <==> NamedBy(old(ps.records[i]), networkName, raw, analyse, n)
  {
    name := None;
    var record := ps.records[i];
    if record.network == networkName && record.uid in raw {
      var profile := analyse(raw[record.uid], record);
      var best := BestNameOf(profile.names);
      if best.Some? && best.value != "" {
        name := best;
      }
      assert Ledger.OnRecord(ps.records, record.uid);
      LinkProfile(ps, record.uid, adapters, profile.profileLinks, SearchTerm(best), i + 1, raw.Keys);
    }
  }

  /**
   * One pass of run's outer loop, over record i. The measure (payloads not
   * yet reached) never grows, and shrinks unless the ledger is unchanged.
   */
  method AnalyseRecord(ps: Ledger.ProfileStore, networkName: string, adapters: seq<Adapter>,
                       raw: map<nat, string>, analyse: (string, Ledger.Record) -> Analysis,
                       ghost s0: Ledger.State, corpus: set<string>, i: nat) returns (corpus': set<string>)
    requires ps.Valid() && i < |ps.records|
    requires RunProgress(s0, ps.Value(), networkName, adapters, raw, analyse, corpus, i)
    modifies ps
    ensures ps.Valid()
    ensures RunProgress(s0, ps.Value(), networkName, adapters, raw, analyse, corpus', i + 1)
    ensures ps.Value() == AnalyseStep(old(ps.Value()), networkName, adapters, raw, analyse, i)
    ensures Walk(ps.Value(), networkName, adapters, raw, analyse, i + 1) == Walk(old(ps.Value()), networkName, adapters, raw, analyse, i)
    ensures var before := old(RawAbove(raw.Keys, ps.curuid) + RawFrom(ps.records, i, raw.Keys));
      var after := RawAbove(raw.Keys, ps.curuid) + RawFrom(ps.records, i + 1, raw.Keys);
      after < before || (after == before && |ps.records| == old(|ps.records|))
  {
    ghost var before := ps.Value();
    WalkStep(before, networkName, adapters, raw, analyse, i);
    var name := AnalyseOne(ps, networkName, adapters, raw, analyse, i);
    corpus' := if name.Some? then corpus + {name.value} else corpus;
    RunProgressStep(s0, before, ps.Value(), networkName, adapters, raw, analyse, corpus, corpus', i);
  }

  /** Once the walk has passed the last record, the run's invariant gives its postconditions. */
  lemma RunFinished(s0: Ledger.State, s: Ledger.State, networkName: string, adapters: seq<Adapter>,
                    raw: map<nat, string>, analyse: (string, Ledger.Record) -> Analysis, corpus: set<string>)
    requires RunProgress(s0, s, networkName, adapters, raw, analyse, corpus, |s.records|)
    requires Walk(s, networkName, adapters, raw, analyse, |s.records|) == Walk(s0, networkName, adapters, raw, analyse, 0)
    ensures s == Walk(s0, networkName, adapters, raw, analyse, 0)
    ensures Ledger.WellNumbered(s0) ==>
      forall k, c :: 0 <= k < |s.records| && Analysed(s.records[k], networkName, raw)
        && c in LinkCandidates(adapters, analyse(raw[s.records[k].uid], s.records[k]))
        ==> Linked(s, s.records[k].uid, c)
  {
    if Ledger.WellNumbered(s0) {
      forall k, c | 0 <= k < |s.records| && Analysed(s.records[k], networkName, raw)
        && c in LinkCandidates(adapters, analyse(raw[s.records[k].uid], s.records[k]))
        ensures Linked(s, s.records[k].uid, c)
      {
        assert LinksKept(s, networkName, adapters, raw, analyse, s.records[k]);
      }
    }
  }

  /**
   * Analyser.run: walk the ledger's records (including those appended during
   * the walk); for each record on this network with a payload, build the
   * profile, and for every profile link an adapter recognises, add the
   * candidate record and the match origin -> returned uid. Returns the
   * non-empty best names of the analysed profiles (the names file).
   */
  method Run(ps: Ledger.ProfileStore, networkName: string, adapters: seq<Adapter>,
             raw: map<nat, string>, analyse: (string, Ledger.Record) -> Analysis) returns (corpus: set<string>)
    requires ps.Valid()
    modifies ps
    ensures ps.Valid()
    ensures ps.Value() == Walk(old(ps.Value()), networkName, adapters, raw, analyse, 0)
    ensures RecordsExplained(old(|ps.records|), ps.Value(), networkName, adapters, raw, analyse, 0)
    ensures EdgesExplained(old(ps.Value()).graph, ps.Value(), networkName, adapters, raw, analyse, 0)
    ensures Grows(old(ps.Value()), ps.Value())
    ensures Ledger.WellNumbered(old(ps.Value())) ==> Ledger.WellNumbered(ps.Value())
    ensures Ledger.WellNumbered(old(ps.Value())) ==>
      forall k, c :: 0 <= k < |ps.records| && Analysed(ps.records[k], networkName, raw)
        && c in LinkCandidates(adapters, analyse(raw[ps.records[k].uid], ps.records[k]))
        ==> Linked(ps.Value(), ps.records[k].uid, c)
    ensures forall n :: n in corpus <==> exists k :: 0 <= k < |ps.records| && NamedBy(ps.records[k], networkName, raw, analyse, n)
  {
    ghost var s0 := ps.Value();
    WalkOnly(s0, networkName, adapters, raw, analyse, 0);
    corpus := RunLoop(ps, networkName, adapters, raw, analyse, s0);
    RunFinished(s0, ps.Value(), networkName, adapters, raw, analyse, corpus);
  }

  /** The outer loop of Analyser.run, from the first record to the last one appended. */
  method RunLoop(ps: Ledger.ProfileStore, networkName: string, adapters: seq<Adapter>,
                 raw: map<nat, string>, analyse: (string, Ledger.Record) -> Analysis,
                 ghost s0: Ledger.State) returns (corpus: set<string>)
    requires ps.Valid() && ps.Value() == s0
    modifies ps
    ensures ps.Valid()
    ensures RunProgress(s0, ps.Value(), networkName, adapters, raw, analyse, corpus, |ps.records|)
    ensures Walk(ps.Value(), networkName, adapters, raw, analyse, |ps.records|) == Walk(s0, networkName, adapters, raw, analyse, 0)
  {
    corpus := {};
    RunProgressStart(s0, networkName, adapters, raw, analyse);
    var i := 0;
    while i < |ps.records|
      invariant ps.Valid()
      invariant RunProgress(s0, ps.Value(), networkName, adapters, raw, analyse, corpus, i)
      invariant Walk(ps.Value(), networkName, adapters, raw, analyse, i) == Walk(s0, networkName, adapters, raw, analyse, 0)
      decreases RawAbove(raw.Keys, ps.curuid) + RawFrom(ps.records, i, raw.Keys), |ps.records| - i
    {
      corpus := AnalyseRecord(ps, networkName, adapters, raw, analyse, s0, corpus, i);
      i := i + 1;
    }
  }
}
