/**
 * The deterministic parts of the screenshot analyser: pulling the JSON text
 * out of the vision model's reply, sanitising the detected components of one
 * slice, cutting a tall screenshot into slices, and capping the list of
 * expected components handed to the model.
 */
module ImageAnalyzer {
  import opened Basics

  // ---------------------------------------------------------------------
  // Whitespace and `str.strip`
  // ---------------------------------------------------------------------

  /** Python's `str.isspace`: what `strip()` removes and what the pattern `\s` matches. */
  predicate IsSpace(c: char) {
    || '\U{0009}' <= c <= '\U{000D}'
    || '\U{001C}' <= c <= '\U{001F}'
    || c == ' ' || c == '\U{0085}' || c == '\U{00A0}' || c == '\U{1680}'
    || '\U{2000}' <= c <= '\U{200A}'
    || c == '\U{2028}' || c == '\U{2029}' || c == '\U{202F}' || c == '\U{205F}' || c == '\U{3000}'
  }

  predicate AllSpace(s: string) {
    forall i :: 0 <= i < |s| ==> IsSpace(s[i])
  }

  /** Neither end of `s` is whitespace. */
  predicate Stripped(s: string) {
    s == [] || (!IsSpace(s[0]) && !IsSpace(s[|s| - 1]))
  }

  /** The length of the whitespace run that starts `s`. */
  function LeadingSpaces(s: string): (n: nat)
    ensures n <= |s|
  {
    if s != [] && IsSpace(s[0]) then
      LeadingSpaces(s[1..]) + 1
    else 0
  }

  /** The length of the whitespace run that ends `s`. */
  function TrailingSpaces(s: string): (n: nat)
    ensures n <= |s|
  {
    if s != [] && IsSpace(s[|s| - 1]) then
      TrailingSpaces(s[..|s| - 1]) + 1
    else 0
  }

  /** The leading run is whitespace, and what follows it (if anything) is not. */
  lemma {:induction false} LeadingSpacesRun(s: string)
    ensures forall i :: 0 <= i < LeadingSpaces(s) ==> IsSpace(s[i])
    ensures LeadingSpaces(s) < |s| ==> !IsSpace(s[LeadingSpaces(s)])
    decreases |s|
  {
    if s != [] && IsSpace(s[0]) {
      LeadingSpacesRun(s[1..]);
      forall i | 1 <= i < LeadingSpaces(s) ensures IsSpace(s[i]) {
        assert s[i] == s[1..][i - 1];
      }
    }
  }

  /** The trailing run is whitespace, and what precedes it (if anything) is not. */
  lemma {:induction false} TrailingSpacesRun(s: string)
    ensures forall i :: |s| - TrailingSpaces(s) <= i < |s| ==> IsSpace(s[i])
    ensures TrailingSpaces(s) < |s| ==> !IsSpace(s[|s| - TrailingSpaces(s) - 1])
    decreases |s|
  {
    if s != [] && IsSpace(s[|s| - 1]) {
      var init := s[..|s| - 1];
      TrailingSpacesRun(init);
      forall i | |s| - TrailingSpaces(s) <= i < |s| - 1 ensures IsSpace(s[i]) {
        assert s[i] == init[i];
      }
      if TrailingSpaces(s) < |s| {
        assert s[|s| - TrailingSpaces(s) - 1] == init[|init| - TrailingSpaces(init) - 1];
      }
    }
  }

  /** A run of whitespace followed by a character that is not whitespace (or the end) is the leading run. */
  lemma {:induction false} LeadingSpacesUnique(s: string, k: nat)
    requires k <= |s| && (forall i :: 0 <= i < k ==> IsSpace(s[i])) && (k < |s| ==> !IsSpace(s[k]))
    ensures LeadingSpaces(s) == k
    decreases k
  {
    if k > 0 {
      var tail := s[1..];
      forall i | 0 <= i < k - 1 ensures IsSpace(tail[i]) {
        assert tail[i] == s[i + 1];
      }
      assert k - 1 < |tail| ==> tail[k - 1] == s[k];
      LeadingSpacesUnique(tail, k - 1);
    }
  }

  lemma {:induction false} TrailingSpacesUnique(s: string, k: nat)
    requires k <= |s| && (forall i :: |s| - k <= i < |s| ==> IsSpace(s[i])) && (k < |s| ==> !IsSpace(s[|s| - k - 1]))
    ensures TrailingSpaces(s) == k
    decreases k
  {
    if k > 0 {
      var init := s[..|s| - 1];
      forall i | |init| - (k - 1) <= i < |init| ensures IsSpace(init[i]) {
        assert init[i] == s[i];
      }
      assert k - 1 < |init| ==> init[|init| - (k - 1) - 1] == s[|s| - k - 1];
      TrailingSpacesUnique(init, k - 1);
    }
  }

  /**
   * `s.strip()`: `s` with its leading and trailing whitespace removed. The
   * result is the part of `s` after its leading whitespace run, and what
   * surrounds it is whitespace.
   */
  function Strip(s: string): (r: string)
    ensures Stripped(r) && |r| <= |s|
  {
    var n := LeadingSpaces(s);
    var t := s[n..];
    var m := TrailingSpaces(t);
    LeadingSpacesRun(s);
    TrailingSpacesRun(t);
    t[..|t| - m]
  }

  /** What `strip` keeps is the part of `s` after its leading run, and all that follows it is whitespace. */
  lemma StripSpans(s: string)
    ensures LeadingSpaces(s) + |Strip(s)| <= |s|
    ensures Strip(s) == s[LeadingSpaces(s)..LeadingSpaces(s) + |Strip(s)|]
    ensures forall i :: LeadingSpaces(s) + |Strip(s)| <= i < |s| ==> IsSpace(s[i])
  {
    var n := LeadingSpaces(s);
    var t := s[n..];
    var m := TrailingSpaces(t);
    var r := t[..|t| - m];
    assert Strip(s) == r;
    assert r == s[n..n + |r|];
    SpacesAfter(s, n);
  }

  /** What follows the trailing run of `s[n..]`, read back in `s`, is whitespace. */
  lemma SpacesAfter(s: string, n: nat)
    requires n <= |s|
    ensures forall i :: |s| - TrailingSpaces(s[n..]) <= i < |s| ==> IsSpace(s[i])
  {
    var t := s[n..];
    TrailingSpacesRun(t);
    forall i | |s| - TrailingSpaces(t) <= i < |s| ensures IsSpace(s[i]) {
      assert s[i] == t[i - n];
    }
  }

  /** Whitespace around a text with no whitespace at its ends is exactly what `strip` removes. */
  lemma {:induction false} StripUnique(lead: string, core: string, trail: string)
    requires AllSpace(lead) && Stripped(core) && AllSpace(trail)
    ensures Strip(lead + core + trail) == core
  {
    var s := lead + core + trail;
    if core == [] {
      assert s == lead + trail;
      assert AllSpace(s) by {
        forall i | 0 <= i < |s| ensures IsSpace(s[i]) {
          if i < |lead| { assert s[i] == lead[i]; } else { assert s[i] == trail[i - |lead|]; }
        }
      }
      assert s[..|s|] == s;
      LeadingSpacesUnique(s, |s|);
    } else {
      assert s[..|lead|] == lead;
      assert s[|lead|] == core[0];
      LeadingSpacesUnique(s, |lead|);
      var t := s[|lead|..];
      assert t == core + trail;
      assert t[|t| - |trail|..] == trail;
      assert t[|t| - |trail| - 1] == core[|core| - 1];
      TrailingSpacesUnique(t, |trail|);
      assert t[..|t| - |trail|] == core;
    }
  }

  /** Text with no whitespace at its ends is left as it is. */
  lemma StrippedIsFixed(s: string)
    requires Stripped(s)
    ensures Strip(s) == s
  {
    LeadingSpacesUnique(s, 0);
    assert s[0..] == s;
    TrailingSpacesUnique(s, 0);
  }

  /** Removing the leading whitespace first does not change what `strip` returns. */
  lemma StripAfterLead(s: string)
    ensures Strip(s[LeadingSpaces(s)..]) == Strip(s)
  {
    var n := LeadingSpaces(s);
    LeadingSpacesRun(s);
    LeadingSpacesUnique(s[n..], 0);
    assert s[n..][0..] == s[n..];
  }

  /** Stripping twice is stripping once. */
  lemma StripIdempotent(s: string)
    ensures Strip(Strip(s)) == Strip(s)
  {
    var r := Strip(s);
    assert [] + r + [] == r;
    StripUnique([], r, []);
  }

  // ---------------------------------------------------------------------
  // The two fence patterns
  // ---------------------------------------------------------------------

  /** Three backticks start at `k`. */
  predicate FenceAt(t: string, k: int) {
    0 <= k && k + 3 <= |t| && t[k] == '`' && t[k + 1] == '`' && t[k + 2] == '`'
  }

  /** Some fence starts at or after `from`. */
  predicate FenceFrom(t: string, from: int) {
    exists e :: from <= e < |t| && FenceAt(t, e)
  }

  /**
   * The word `json` at `k`, matched ignoring case as Python's regular
   * expressions do on text: `s` also matches the long s, U+017F.
   */
  predicate JsonWordAt(t: string, k: int) {
    && 0 <= k && k + 4 <= |t|
    && (t[k] == 'j' || t[k] == 'J')
    && (t[k + 1] == 's' || t[k + 1] == 'S' || t[k + 1] == '\U{017F}')
    && (t[k + 2] == 'o' || t[k + 2] == 'O')
    && (t[k + 3] == 'n' || t[k + 3] == 'N')
  }

  /** The two patterns tried in turn: a fence tagged `json` (case ignored), then any fence. */
  datatype Pattern = JsonFence | AnyFence

  /** The length of a pattern's opening delimiter. */
  function OpenerLength(p: Pattern): nat {
    match p
    case JsonFence => 7
    case AnyFence => 3
  }

  /** The pattern matches at `k`: its opener is there and a closing fence follows it. */
  predicate MatchAt(t: string, k: int, p: Pattern) {
    && FenceAt(t, k)
    && (p == JsonFence ==> JsonWordAt(t, k + 3))
    && FenceFrom(t, k + OpenerLength(p))
  }

  /** The first fence at or after `from`: where the lazy group stops. */
  function FirstFence(t: string, from: nat): (r: Option<nat>)
    decreases |t| - from
    ensures r.Some? ==> from <= r.value && FenceAt(t, r.value)
    ensures r.None? <==> !FenceFrom(t, from)
  {
    if from + 3 > |t| then None
    else if FenceAt(t, from) then Some(from)
    else FirstFence(t, from + 1)
  }

  /** Where `re.search` finds the pattern: the leftmost position at or after `from` where it matches. */
  function FirstMatch(t: string, from: nat, p: Pattern): (r: Option<nat>)
    decreases |t| - from
    ensures r.Some? ==> from <= r.value && MatchAt(t, r.value, p)
    ensures r.Some? ==> forall k :: from <= k < r.value ==> !MatchAt(t, k, p)
    ensures r.None? ==> forall k :: from <= k ==> !MatchAt(t, k, p)
  {
    if from >= |t| then None
    else if MatchAt(t, from, p) then Some(from)
    else FirstMatch(t, from + 1, p)
  }

  /**
   * The first capture group of a match at `k`. The tagged pattern lets `\s*`
   * take the whole whitespace run after `json` before the group starts; in
   * both patterns the lazy group ends at the first fence after the opener.
   */
  function Group(t: string, k: nat, p: Pattern): (g: string)
    requires MatchAt(t, k, p)
    ensures |g| <= |t|
  {
    var start := GroupStart(t, k, p);
    GroupCloses(t, k + OpenerLength(p), start);
    t[start..FirstFence(t, start).value]
  }

  /** Where the group starts: after the opener and, in the tagged pattern, the whitespace run `\s*` takes. */
  function GroupStart(t: string, k: nat, p: Pattern): (start: nat)
    requires k + OpenerLength(p) <= |t|
    ensures start == k + OpenerLength(p) || start == k + OpenerLength(p) + LeadingSpaces(t[k + OpenerLength(p)..])
  {
    var open := k + OpenerLength(p);
    if p == JsonFence then open + LeadingSpaces(t[open..]) else open
  }

  /** A fence after the opener also follows the whitespace run that `\s*` takes. */
  lemma GroupCloses(t: string, open: nat, start: nat)
    requires open <= |t| && FenceFrom(t, open)
    requires start == open || start == open + LeadingSpaces(t[open..])
    ensures FenceFrom(t, start)
  {
    var e :| open <= e < |t| && FenceAt(t, e);
    if start > open {
      LeadingSpacesRun(t[open..]);
      assert forall i :: open <= i < start ==> t[i] == t[open..][i - open];
    }
    assert start <= e;
  }

  /** The first index of `c` in `t` (`str.find`). */
  function FindChar(t: string, c: char): (r: Option<nat>)
    ensures r.Some? ==> r.value < |t| && t[r.value] == c && forall k :: 0 <= k < r.value ==> t[k] != c
    ensures r.None? ==> forall k :: 0 <= k < |t| ==> t[k] != c
  {
    if t == [] then None
    else if t[0] == c then Some(0)
    else match FindChar(t[1..], c)
      case None => None
      case Some(i) => Some(i + 1)
  }

  /** The last index of `c` in `t` (`str.rfind`). */
  function RFindChar(t: string, c: char): (r: Option<nat>)
    ensures r.Some? ==> r.value < |t| && t[r.value] == c && forall k :: r.value < k < |t| ==> t[k] != c
    ensures r.None? ==> forall k :: 0 <= k < |t| ==> t[k] != c
  {
    if t == [] then None
    else if t[|t| - 1] == c then Some(|t| - 1)
    else RFindChar(t[..|t| - 1], c)
  }

  /**
   * `_extract_json_from_response(text)`: `None` for a missing or empty reply;
   * otherwise the stripped group of a `json` fence, else of any fence, else the
   * text from the first `[` to the last `]` when the first comes before the
   * last, else the whole reply stripped.
   */
  function ExtractJson(text: Option<string>): (r: Option<string>)
    ensures r.None? <==> text.None? || text.value == []
    ensures r.Some? ==> Stripped(r.value) && |r.value| <= |text.value|
  {
    if text.None? || text.value == [] then None else Some(FromReply(text.value))
  }

  /** The two fence searches, tried in turn, then the bracket fallback. */
  function FromReply(t: string): (r: string)
    ensures Stripped(r) && |r| <= |t|
  {
    match FirstMatch(t, 0, JsonFence)
    case Some(k) => Strip(Group(t, k, JsonFence))
    case None =>
      match FirstMatch(t, 0, AnyFence)
      case Some(k) => Strip(Group(t, k, AnyFence))
      case None => Strip(FromBrackets(t))
  }

  /** What a reply without fences is cut to before stripping: the first `[` to the last `]`, else all of it. */
  function FromBrackets(t: string): (r: string)
    ensures |r| <= |t|
  {
    var start := FindChar(t, '[');
    var end := RFindChar(t, ']');
    if start.Some? && end.Some? && end.value > start.value then t[start.value..end.value + 1]
    else t
  }

  /**
   * What `_analyze_single_slice` hands to the JSON decoder: the cleaned reply,
   * or nothing (and so no records for the band) when that text is missing or empty.
   */
  function SliceJson(reply: Option<string>): (r: Option<string>)
    ensures r.None? <==> ExtractJson(reply).None? || ExtractJson(reply).value == []
    ensures r.Some? ==> r == ExtractJson(reply) && r.value != []
  {
    match ExtractJson(reply)
    case Some(text) => if text == [] then None else Some(text)
    case None => None
  }

  predicate NoBacktick(s: string) {
    forall i :: 0 <= i < |s| ==> s[i] != '`'
  }

  /** A non-empty reply leaves nothing to decode exactly when the cleaning reduces it to the empty text. */
  lemma SliceJsonEmpty(t: string)
    requires t != []
    ensures SliceJson(Some(t)).None? <==> FromReply(t) == []
  {
  }

  /** A reply that is an empty `json` fence cleans to the empty text, which gives the band no records. */
  lemma EmptyFenceGivesNothing()
    ensures ExtractJson(Some("```json```")) == Some("")
    ensures SliceJson(Some("```json```")).None?
  {
    var e: string := [];
    assert e + "```json" + e + "```" + e == "```json```";
    JsonFenceRoundTrip(e, e, e);
    assert |Strip(e)| <= 0;
  }

  /** The first pattern decides the result when it matches. */
  lemma ExtractByJsonFence(t: string, k: nat)
    requires t != [] && FirstMatch(t, 0, JsonFence) == Some(k)
    ensures ExtractJson(Some(t)) == Some(Strip(Group(t, k, JsonFence)))
  {
  }

  /** With no fence at all, the brackets decide the result. */
  lemma ExtractByBrackets(t: string, start: nat, end: nat)
    requires t != [] && forall k :: !FenceAt(t, k)
    requires FindChar(t, '[') == Some(start) && RFindChar(t, ']') == Some(end) && start < end
    ensures ExtractJson(Some(t)) == Some(Strip(t[start..end + 1]))
  {
    NoMatchWithoutFence(t, JsonFence);
    NoMatchWithoutFence(t, AnyFence);
    assert FromReply(t) == Strip(FromBrackets(t));
    FromBracketsSpan(t, start, end);
    assert ExtractJson(Some(t)) == Some(FromReply(t));
  }

  /** Neither pattern matches text without a fence. */
  lemma NoMatchWithoutFence(t: string, p: Pattern)
    requires forall k :: !FenceAt(t, k)
    ensures FirstMatch(t, 0, p).None?
  {
  }

  lemma FromBracketsSpan(t: string, start: nat, end: nat)
    requires FindChar(t, '[') == Some(start) && RFindChar(t, ']') == Some(end) && start < end
    ensures FromBrackets(t) == t[start..end + 1]
  {
  }

  lemma NoBacktickJoin(a: string, b: string)
    requires NoBacktick(a) && NoBacktick(b)
    ensures NoBacktick(a + b)
  {
    assert forall i :: |a| <= i < |a + b| ==> (a + b)[i] == b[i - |a|];
  }

  lemma NoFenceWithoutBacktick(t: string)
    requires NoBacktick(t)
    ensures forall k :: !FenceAt(t, k)
  {
  }

  /** The fence that closes a run without backticks is the first one after the run starts. */
  lemma {:induction false} FirstFenceIs(t: string, from: nat, close: nat)
    requires from <= close && FenceAt(t, close)
    requires forall k :: from <= k < close ==> t[k] != '`'
    ensures FirstFence(t, from) == Some(close)
    decreases close - from
  {
    if from < close {
      FirstFenceIs(t, from + 1, close);
    }
  }

  /** Text that starts with something other than whitespace adds nothing to a leading run. */
  lemma LeadingSpacesJoin(a: string, b: string)
    requires b != [] && !IsSpace(b[0])
    ensures LeadingSpaces(a + b) == LeadingSpaces(a)
  {
    var n := LeadingSpaces(a);
    LeadingSpacesRun(a);
    assert forall i :: 0 <= i < |a| ==> (a + b)[i] == a[i];
    assert n == |a| ==> (a + b)[n] == b[0];
    LeadingSpacesUnique(a + b, n);
  }

  lemma FindCharAfter(prefix: string, rest: string, c: char)
    requires forall i :: 0 <= i < |prefix| ==> prefix[i] != c
    requires rest != [] && rest[0] == c
    ensures FindChar(prefix + rest, c) == Some(|prefix|)
  {
    assert forall i :: 0 <= i < |prefix| ==> (prefix + rest)[i] == prefix[i];
    assert (prefix + rest)[|prefix|] == c;
  }

  lemma RFindCharBefore(rest: string, suffix: string, c: char)
    requires forall i :: 0 <= i < |suffix| ==> suffix[i] != c
    requires rest != [] && rest[|rest| - 1] == c
    ensures RFindChar(rest + suffix, c) == Some(|rest| - 1)
  {
    assert forall i :: |rest| <= i < |rest + suffix| ==> (rest + suffix)[i] == suffix[i - |rest|];
    assert (rest + suffix)[|rest| - 1] == c;
  }

  /** The group of a tagged match at `k`, once its whitespace run is known: from the run's end to the next fence. */
  lemma JsonGroupIs(t: string, k: nat, lead: nat)
    requires MatchAt(t, k, JsonFence) && LeadingSpaces(t[k + 7..]) == lead
    requires FirstFence(t, k + 7 + lead).Some?
    ensures Group(t, k, JsonFence) == t[k + 7 + lead..FirstFence(t, k + 7 + lead).value]
  {
    JsonGroupStart(t, k, lead);
  }

  /** A tagged group starts after the opener and the whitespace run that follows it. */
  lemma JsonGroupStart(t: string, k: nat, lead: nat)
    requires k + 7 <= |t| && LeadingSpaces(t[k + 7..]) == lead
    ensures GroupStart(t, k, JsonFence) == k + 7 + lead
  {
  }

  /**
   * A reply whose text before a `json` fence has no backticks, and whose
   * payload up to the next fence has none, yields the stripped payload.
   */
  lemma JsonFenceRoundTrip(prefix: string, payload: string, trail: string)
    requires NoBacktick(prefix) && NoBacktick(payload)
    ensures ExtractJson(Some(prefix + "```json" + payload + "```" + trail)) == Some(Strip(payload))
  {
    var t := prefix + "```json" + payload + "```" + trail;
    var a := |prefix|;
    JsonFenceFirst(prefix, payload, trail);
    JsonFenceGroup(prefix, payload, trail);
    ExtractByJsonFence(t, a);
    StripAfterLead(payload);
  }

  /** The reply's shape: the prefix, the opener, the payload, then a fence. */
  lemma JsonReplyLayout(prefix: string, payload: string, trail: string)
    ensures var t := prefix + "```json" + payload + "```" + trail;
            var a := |prefix|;
            && a + 7 + |payload| + 3 <= |t|
            && (forall k :: 0 <= k < a ==> t[k] == prefix[k])
            && t[a..a + 7] == "```json"
            && (forall i :: 0 <= i < |payload| ==> t[a + 7 + i] == payload[i])
            && FenceAt(t, a + 7 + |payload|)
  {
    var t := prefix + "```json" + payload + "```" + trail;
    var a := |prefix|;
    var close := a + 7 + |payload|;
    assert t == prefix + ("```json" + (payload + ("```" + trail)));
    assert t[close..close + 3] == "```";
  }

  /** The tagged pattern first matches right after such a prefix. */
  lemma JsonFenceFirst(prefix: string, payload: string, trail: string)
    requires NoBacktick(prefix)
    ensures var t := prefix + "```json" + payload + "```" + trail;
            MatchAt(t, |prefix|, JsonFence) && FirstMatch(t, 0, JsonFence) == Some(|prefix|)
  {
    var t := prefix + "```json" + payload + "```" + trail;
    var a := |prefix|;
    JsonReplyLayout(prefix, payload, trail);
    assert t[a..a + 7][0] == t[a];
    assert FenceAt(t, a) && JsonWordAt(t, a + 3);
    assert FenceFrom(t, a + 7) by {
      assert a + 7 <= a + 7 + |payload| < |t| && FenceAt(t, a + 7 + |payload|);
    }
  }

  /** Its group is the payload after its leading whitespace. */
  lemma JsonFenceGroup(prefix: string, payload: string, trail: string)
    requires NoBacktick(payload)
    requires MatchAt(prefix + "```json" + payload + "```" + trail, |prefix|, JsonFence)
    ensures Group(prefix + "```json" + payload + "```" + trail, |prefix|, JsonFence) == payload[LeadingSpaces(payload)..]
  {
    var t := prefix + "```json" + payload + "```" + trail;
    var a := |prefix|;
    JsonReplyLayout(prefix, payload, trail);
    TaggedPayloadGroup(t, a, payload);
  }

  /** A tagged match at `a` whose opener is followed by a backtick-free payload and then a fence has that payload, less its leading whitespace, as its group. */
  lemma TaggedPayloadGroup(t: string, a: nat, payload: string)
    requires NoBacktick(payload) && MatchAt(t, a, JsonFence)
    requires forall i :: 0 <= i < |payload| ==> a + 7 + i < |t| && t[a + 7 + i] == payload[i]
    requires FenceAt(t, a + 7 + |payload|)
    ensures Group(t, a, JsonFence) == payload[LeadingSpaces(payload)..]
  {
    PayloadGroup(t, a, payload);
    JsonGroupOfPayload(t, a, payload);
  }

  /** After the opener of a tagged match at `a`, the whitespace run and the text up to the next fence are those of `payload`. */
  ghost predicate PayloadAfter(t: string, a: nat, payload: string) {
    && a + 7 <= |t|
    && LeadingSpaces(t[a + 7..]) == LeadingSpaces(payload)
    && FirstFence(t, a + 7 + LeadingSpaces(payload)).Some?
    && t[a + 7 + LeadingSpaces(payload)..FirstFence(t, a + 7 + LeadingSpaces(payload)).value] == payload[LeadingSpaces(payload)..]
  }

  /** A tagged match at `a` whose whitespace run and text up to the next fence are a payload's has that payload, less its leading whitespace, as its group. */
  lemma JsonGroupOfPayload(t: string, a: nat, payload: string)
    requires MatchAt(t, a, JsonFence) && PayloadAfter(t, a, payload)
    ensures Group(t, a, JsonFence) == payload[LeadingSpaces(payload)..]
  {
    JsonGroupIs(t, a, LeadingSpaces(payload));
  }

  /** After the opener at `a`, the run of whitespace and the text up to the next fence are those of the payload. */
  lemma PayloadGroup(t: string, a: nat, payload: string)
    requires NoBacktick(payload)
    requires forall i :: 0 <= i < |payload| ==> a + 7 + i < |t| && t[a + 7 + i] == payload[i]
    requires FenceAt(t, a + 7 + |payload|)
    ensures PayloadAfter(t, a, payload)
  {
    LeadOfPayload(t, a, payload);
    PayloadFenceIs(t, a, payload);
    PayloadSlice(t, a, payload);
  }

  /** The whitespace run after the opener at `a` is the payload's own, since a fence follows the payload. */
  lemma LeadOfPayload(t: string, a: nat, payload: string)
    requires forall i :: 0 <= i < |payload| ==> a + 7 + i < |t| && t[a + 7 + i] == payload[i]
    requires FenceAt(t, a + 7 + |payload|)
    ensures LeadingSpaces(t[a + 7..]) == LeadingSpaces(payload)
  {
    var lead := LeadingSpaces(payload);
    LeadingSpacesRun(payload);
    var r := t[a + 7..];
    forall i | 0 <= i < lead ensures IsSpace(r[i]) {
      assert r[i] == payload[i];
    }
    assert lead < |payload| ==> r[lead] == payload[lead];
    assert lead == |payload| ==> r[lead] == '`';
    LeadingSpacesUnique(r, lead);
  }

  /** The fence after a backtick-free payload is the first one from the end of its leading run. */
  lemma PayloadFenceIs(t: string, a: nat, payload: string)
    requires NoBacktick(payload)
    requires forall i :: 0 <= i < |payload| ==> a + 7 + i < |t| && t[a + 7 + i] == payload[i]
    requires FenceAt(t, a + 7 + |payload|)
    ensures FirstFence(t, a + 7 + LeadingSpaces(payload)) == Some(a + 7 + |payload|)
  {
    forall k | a + 7 + LeadingSpaces(payload) <= k < a + 7 + |payload| ensures t[k] != '`' {
      assert t[k] == payload[k - a - 7];
    }
    FirstFenceIs(t, a + 7 + LeadingSpaces(payload), a + 7 + |payload|);
  }

  /** The text from the end of the run to the fence is the rest of the payload. */
  lemma PayloadSlice(t: string, a: nat, payload: string)
    requires forall i :: 0 <= i < |payload| ==> a + 7 + i < |t| && t[a + 7 + i] == payload[i]
    requires FenceAt(t, a + 7 + |payload|)
    ensures t[a + 7 + LeadingSpaces(payload)..a + 7 + |payload|] == payload[LeadingSpaces(payload)..]
  {
    forall i | 0 <= i < |payload| - LeadingSpaces(payload)
      ensures t[a + 7 + LeadingSpaces(payload)..a + 7 + |payload|][i] == payload[LeadingSpaces(payload)..][i]
    {
      assert t[a + 7 + (LeadingSpaces(payload) + i)] == payload[LeadingSpaces(payload) + i];
    }
  }

  /**
   * A reply with no backticks whose text before the first `[` has no `[` and
   * whose text after the last `]` has no `]` yields that bracketed array.
   */
  lemma BareArrayRoundTrip(prefix: string, body: string, suffix: string)
    requires NoBacktick(prefix) && NoBacktick(body) && NoBacktick(suffix)
    requires forall i :: 0 <= i < |prefix| ==> prefix[i] != '['
    requires forall i :: 0 <= i < |suffix| ==> suffix[i] != ']'
    ensures ExtractJson(Some(prefix + "[" + body + "]" + suffix)) == Some("[" + body + "]")
  {
    var arr := "[" + body + "]";
    NoBacktickJoin("[", body);
    NoBacktickJoin("[" + body, "]");
    BracketedIn(prefix, arr, suffix);
    StrippedIsFixed(arr);
    Regroup(prefix, "[", body, "]", suffix);
  }

  lemma Regroup(a: string, b: string, c: string, d: string, e: string)
    ensures a + b + c + d + e == a + (b + c + d) + e
  {
    var l := a + b + c + d + e;
    var r := a + (b + c + d) + e;
    assert |l| == |r|;
    forall i | 0 <= i < |l| ensures l[i] == r[i] {
      if i < |a| {
      } else if i < |a + b + c + d| {
        assert l[i] == (a + b + c + d)[i] && r[i] == (a + (b + c + d))[i];
      } else {
      }
    }
  }

  /** Text without backticks around a span from the first `[` to the last `]` yields that span, stripped. */
  lemma BracketedIn(prefix: string, arr: string, suffix: string)
    requires NoBacktick(prefix) && NoBacktick(arr) && NoBacktick(suffix)
    requires |arr| >= 2 && arr[0] == '[' && arr[|arr| - 1] == ']'
    requires forall i :: 0 <= i < |prefix| ==> prefix[i] != '['
    requires forall i :: 0 <= i < |suffix| ==> suffix[i] != ']'
    ensures ExtractJson(Some(prefix + arr + suffix)) == Some(Strip(arr))
  {
    var t := prefix + arr + suffix;
    var last := |prefix| + |arr| - 1;
    assert t == prefix + (arr + suffix);
    NoBacktickJoin(prefix, arr);
    NoBacktickJoin(prefix + arr, suffix);
    NoFenceWithoutBacktick(t);
    FindCharAfter(prefix, arr + suffix, '[');
    RFindCharBefore(prefix + arr, suffix, ']');
    ExtractByBrackets(t, |prefix|, last);
    assert t[|prefix|..last + 1] == arr;
  }

  /** Without a tagged match, the untagged pattern decides the result when it matches. */
  lemma ExtractByAnyFence(t: string, k: nat)
    requires t != [] && FirstMatch(t, 0, JsonFence).None? && FirstMatch(t, 0, AnyFence) == Some(k)
    ensures ExtractJson(Some(t)) == Some(Strip(Group(t, k, AnyFence)))
  {
  }

  /** With no fence and no `]` after any `[`, the whole reply is stripped. */
  lemma ExtractWhole(t: string)
    requires t != [] && forall k :: !FenceAt(t, k)
    requires forall i, j :: 0 <= i < j < |t| && t[i] == '[' ==> t[j] != ']'
    ensures ExtractJson(Some(t)) == Some(Strip(t))
  {
    NoMatchWithoutFence(t, JsonFence);
    NoMatchWithoutFence(t, AnyFence);
    assert FromBrackets(t) == t;
  }

  /**
   * A reply whose only backticks are two fences, the first not followed by
   * the word `json`, yields what lies between the fences, stripped.
   */
  lemma PlainFenceRoundTrip(prefix: string, payload: string, trail: string)
    requires NoBacktick(prefix) && NoBacktick(payload) && NoBacktick(trail)
    requires !JsonWordAt(payload, 0)
    ensures ExtractJson(Some(prefix + "```" + payload + "```" + trail)) == Some(Strip(payload))
  {
    var t := prefix + "```" + payload + "```" + trail;
    var a, c := |prefix|, |prefix| + 3 + |payload|;
    PlainReplyLayout(prefix, payload, trail);
    if |payload| < 4 {
      assert t[c] == '`';
    } else {
      assert t[a + 3] == payload[0] && t[a + 4] == payload[1] && t[a + 5] == payload[2] && t[a + 6] == payload[3];
    }
    assert !JsonWordAt(t, a + 3);
    NoTaggedMatch(t, a, c);
    assert FenceAt(t, a) && FenceAt(t, c);
    assert MatchAt(t, a, AnyFence);
    assert forall k :: 0 <= k < a ==> !FenceAt(t, k);
    assert FirstMatch(t, 0, AnyFence) == Some(a);
    FirstFenceIs(t, a + 3, c);
    assert Group(t, a, AnyFence) == payload;
    ExtractByAnyFence(t, a);
  }

  /** Where the backticks of such a reply are, and where its payload sits. */
  lemma PlainReplyLayout(prefix: string, payload: string, trail: string)
    requires NoBacktick(prefix) && NoBacktick(payload) && NoBacktick(trail)
    ensures var t := prefix + "```" + payload + "```" + trail;
            var a, c := |prefix|, |prefix| + 3 + |payload|;
            && |t| == c + 3 + |trail|
            && (forall i :: 0 <= i < |t| ==> (t[i] == '`' <==> a <= i < a + 3 || c <= i < c + 3))
            && t[a + 3..c] == payload
  {
    var t := prefix + "```" + payload + "```" + trail;
    var a, c := |prefix|, |prefix| + 3 + |payload|;
    forall i | 0 <= i < |t| ensures t[i] == '`' <==> a <= i < a + 3 || c <= i < c + 3 {
      if i < a {
        assert t[i] == prefix[i];
      } else if i < a + 3 {
      } else if i < c {
        assert t[i] == payload[i - a - 3];
      } else if i < c + 3 {
      } else {
        assert t[i] == trail[i - c - 3];
      }
    }
    assert t == prefix + "```" + payload + ("```" + trail);
  }

  /** Text whose only backticks are fences at `a` and `c`, with no `json` after the first, has no tagged match. */
  lemma NoTaggedMatch(t: string, a: nat, c: nat)
    requires a + 3 <= c && c + 3 <= |t|
    requires forall i :: 0 <= i < |t| ==> (t[i] == '`' <==> a <= i < a + 3 || c <= i < c + 3)
    requires !JsonWordAt(t, a + 3)
    ensures FirstMatch(t, 0, JsonFence).None?
  {
    forall k | 0 <= k ensures !MatchAt(t, k, JsonFence) {
      if FenceAt(t, k) {
        if k == a {
        } else if k < a + 3 {
          assert c == a + 3;
          assert t[k + 3] == '`';
        } else {
          assert !FenceFrom(t, k + 7);
        }
      }
    }
  }

  // ---------------------------------------------------------------------
  // Sanitising the components of one slice
  // ---------------------------------------------------------------------

  /** One record of the detector's reply; a key the record lacks is `None`. */
  datatype Detected = Detected(name: Option<string>, kind: Option<string>, bounds: Option<Bounds>,
                               textContent: Option<string>)

  /** The record after `comp["bounds"]["y"] += offset_y`; a record without `bounds` or `y` is unchanged. */
  function Shifted(d: Detected, offsetY: real): Detected {
    if d.bounds.Some? && Y in d.bounds.value then
      d.(bounds := Some(d.bounds.value[Y := d.bounds.value[Y] + offsetY]))
    else d
  }

  /** Shifting moves only `y`, by the offset; every other field and key is kept. */
  lemma ShiftedMovesOnlyY(d: Detected, offsetY: real)
    ensures var s := Shifted(d, offsetY);
            && s.name == d.name && s.kind == d.kind && s.textContent == d.textContent
            && s.bounds.Some? == d.bounds.Some?
            && (d.bounds.Some? ==>
                  && s.bounds.value.Keys == d.bounds.value.Keys
                  && (forall k :: k in d.bounds.value && k != Y ==> s.bounds.value[k] == d.bounds.value[k])
                  && (Y in d.bounds.value ==> s.bounds.value[Y] == d.bounds.value[Y] + offsetY))
  {
  }

  /** A container with no text: the "ghost box" the detector should not have reported. */
  predicate IsGhostBox(d: Detected) {
    d.kind == Some("Container") && (d.textContent.None? || d.textContent == Some(""))
  }

  /**
   * Reading the record raises `KeyError`: `y` is missing, or the record is
   * not a ghost box and `w` is missing, or `w` is positive and `h` is missing.
   */
  predicate Faults(d: Detected) {
    && d.bounds.Some?
    && var b := d.bounds.value;
       || Y !in b
       || (!IsGhostBox(d) && (W !in b || (b[W] > 0.0 && H !in b)))
  }

  /** The record is appended to `valid_data`. */
  predicate Keeps(d: Detected) {
    && d.bounds.Some?
    && var b := d.bounds.value;
       && Y in b && W in b && H in b
       && !IsGhostBox(d) && b[W] > 0.0 && b[H] > 0.0
  }

  /** The first record that raises, if any. */
  function FirstFault(ds: seq<Detected>): (r: Option<nat>)
    ensures r.Some? ==> r.value < |ds| && Faults(ds[r.value])
    ensures r.Some? ==> forall i :: 0 <= i < r.value ==> !Faults(ds[i])
    ensures r.None? ==> forall i :: 0 <= i < |ds| ==> !Faults(ds[i])
  {
    if ds == [] then None
    else if Faults(ds[0]) then Some(0)
    else match FirstFault(ds[1..])
      case None => None
      case Some(i) => Some(i + 1)
  }

  /** The records kept from `ds`, shifted, in input order, when nothing raises. */
  function Kept(ds: seq<Detected>, offsetY: real): (r: seq<Detected>)
    ensures |r| <= |ds|
  {
    if ds == [] then []
    else
      var last := ds[|ds| - 1];
      Kept(ds[..|ds| - 1], offsetY) + (if Keeps(last) then [Shifted(last, offsetY)] else [])
  }

  /** Every record kept passes the filter once shifted. */
  lemma {:induction false} KeptKeeps(ds: seq<Detected>, offsetY: real)
    ensures forall i :: 0 <= i < |Kept(ds, offsetY)| ==> Keeps(Kept(ds, offsetY)[i])
  {
    if ds != [] {
      var init, last := ds[..|ds| - 1], ds[|ds| - 1];
      KeptKeeps(init, offsetY);
      KeepsShifted(last, offsetY);
      var tail := if Keeps(last) then [Shifted(last, offsetY)] else [];
      assert Kept(ds, offsetY) == Kept(init, offsetY) + tail;
      forall i | 0 <= i < |Kept(ds, offsetY)| ensures Keeps(Kept(ds, offsetY)[i]) {
        if i >= |Kept(init, offsetY)| {
          assert Kept(ds, offsetY)[i] == tail[i - |Kept(init, offsetY)|];
        }
      }
    }
  }

  /** What the slice contributes: nothing when some record raises, otherwise the kept records. */
  function SliceOutcome(ds: seq<Detected>, offsetY: real): (r: seq<Detected>)
    ensures FirstFault(ds).Some? ==> r == []
  {
    if FirstFault(ds).Some? then [] else Kept(ds, offsetY)
  }

  /** Every record a slice contributes passes the filter. */
  lemma SliceOutcomeKeeps(ds: seq<Detected>, offsetY: real)
    ensures forall i :: 0 <= i < |SliceOutcome(ds, offsetY)| ==> Keeps(SliceOutcome(ds, offsetY)[i])
  {
    KeptKeeps(ds, offsetY);
  }

  /** How many records the loop visits: up to and including the first that raises. */
  function Visited(ds: seq<Detected>): (n: nat)
    ensures n <= |ds|
  {
    match FirstFault(ds)
    case Some(f) => f + 1
    case None => |ds|
  }

  lemma FirstFaultOfPrefix(ds: seq<Detected>, i: nat, offsetY: real)
    requires i < |ds| && FirstFault(ds[..i]).None?
    ensures FirstFault(ds[..i + 1]) == (if Faults(ds[i]) then Some(i) else None)
    ensures Faults(ds[i]) ==> SliceOutcome(ds, offsetY) == [] && Visited(ds) == i + 1
  {
    assert forall j :: 0 <= j < i ==> ds[..i][j] == ds[j];
    assert ds[..i + 1][i] == ds[i];
  }

  /** What happens to one record in the filter loop. */
  datatype Verdict = Skip | Keep | Raise

  /**
   * The body of the filter loop for one record: the record after its `y` is
   * shifted, and whether it is skipped, kept, or its reading raises.
   */
  method VisitRecord(comp: Detected, offsetY: real) returns (shifted: Detected, verdict: Verdict)
    ensures shifted == Shifted(comp, offsetY)
    ensures verdict == Raise <==> Faults(comp)
    ensures verdict == Keep <==> Keeps(comp)
  {
    shifted := comp;
    if comp.bounds.None? {
      return shifted, Skip;
    }
    var b := comp.bounds.value;
    if Y !in b {
      return shifted, Raise;
    }
    shifted := comp.(bounds := Some(b[Y := b[Y] + offsetY]));
    if IsGhostBox(shifted) {
      return shifted, Skip;
    }
    if W !in b {
      return shifted, Raise;
    }
    if b[W] <= 0.0 {
      return shifted, Skip;
    }
    if H !in b {
      return shifted, Raise;
    }
    if b[H] <= 0.0 {
      return shifted, Skip;
    }
    return shifted, Keep;
  }

  /**
   * The filter loop of `_analyze_single_slice` over the decoded reply. It
   * shifts the `y` of every record it reaches in place, keeps the records that
   * pass, and returns nothing when a record raises (the enclosing handler
   * turns the exception into an empty list).
   */
  method FilterSlice(data: array<Detected>, offsetY: real) returns (valid: seq<Detected>)
    modifies data
    ensures valid == SliceOutcome(old(data[..]), offsetY)
    ensures forall j :: 0 <= j < data.Length ==>
              data[j] == if j < Visited(old(data[..])) then Shifted(old(data[j]), offsetY) else old(data[j])
  {
    ghost var input := data[..];
    valid := [];
    for i := 0 to data.Length
      invariant FirstFault(input[..i]).None?
      invariant valid == Kept(input[..i], offsetY)
      invariant forall j :: 0 <= j < i ==> data[j] == Shifted(input[j], offsetY)
      invariant forall j :: i <= j < data.Length ==> data[j] == input[j]
    {
      FirstFaultOfPrefix(input, i, offsetY);
      KeptSnoc(input, i, offsetY);
      var shifted, verdict := VisitRecord(data[i], offsetY);
      data[i] := shifted;
      if verdict == Raise {
        assert Visited(input) == i + 1;
        return [];
      }
      if verdict == Keep {
        valid := valid + [shifted];
      }
    }
    assert input[..data.Length] == input;
  }

  lemma KeptSnoc(ds: seq<Detected>, i: nat, offsetY: real)
    requires i < |ds|
    ensures Kept(ds[..i + 1], offsetY) == Kept(ds[..i], offsetY) + (if Keeps(ds[i]) then [Shifted(ds[i], offsetY)] else [])
  {
    assert ds[..i + 1][..i] == ds[..i];
  }

  /** A record is kept exactly when it passes the filter, and it comes out shifted. */
  lemma {:induction false} KeptMembers(ds: seq<Detected>, offsetY: real, x: Detected)
    ensures x in Kept(ds, offsetY) <==> exists i :: 0 <= i < |ds| && Keeps(ds[i]) && x == Shifted(ds[i], offsetY)
  {
    if ds != [] {
      var init := ds[..|ds| - 1];
      KeptMembers(init, offsetY, x);
      assert forall i :: 0 <= i < |init| ==> init[i] == ds[i];
      if x in Kept(ds, offsetY) && x !in Kept(init, offsetY) {
        assert Keeps(ds[|ds| - 1]) && x == Shifted(ds[|ds| - 1], offsetY);
      }
    }
  }

  /** The filter keeps input order: filtering a concatenation concatenates the results. */
  lemma {:induction false} KeptJoin(a: seq<Detected>, b: seq<Detected>, offsetY: real)
    ensures Kept(a + b, offsetY) == Kept(a, offsetY) + Kept(b, offsetY)
  {
    if b == [] {
      assert a + b == a;
    } else {
      var init := b[..|b| - 1];
      KeptJoin(a, init, offsetY);
      assert (a + b)[..|a + b| - 1] == a + init;
      assert (a + b)[|a + b| - 1] == b[|b| - 1];
    }
  }

  lemma ShiftedTwice(d: Detected, a: real, b: real)
    ensures Shifted(Shifted(d, a), b) == Shifted(d, a + b)
  {
    if d.bounds.Some? && Y in d.bounds.value {
      var m := d.bounds.value;
      assert m[Y := m[Y] + a][Y := m[Y] + a + b] == m[Y := m[Y] + (a + b)];
    }
  }

  lemma KeepsShifted(d: Detected, offsetY: real)
    ensures Keeps(Shifted(d, offsetY)) == Keeps(d)
  {
    ShiftedMovesOnlyY(d, offsetY);
  }

  /** Filtering the output of a slice again at a second offset is filtering once at the sum of the offsets. */
  lemma {:induction false} KeptComposes(ds: seq<Detected>, a: real, b: real)
    ensures Kept(Kept(ds, a), b) == Kept(ds, a + b)
  {
    if ds != [] {
      var init := ds[..|ds| - 1];
      var last := ds[|ds| - 1];
      KeptComposes(init, a, b);
      var tail := if Keeps(last) then [Shifted(last, a)] else [];
      KeptJoin(Kept(init, a), tail, b);
      if Keeps(last) {
        KeepsShifted(last, a);
        ShiftedTwice(last, a, b);
        assert Kept(tail, b) == Kept([], b) + [Shifted(Shifted(last, a), b)] by {
          assert tail[..0] == [];
        }
      }
    }
  }

  /** The outcome of a slice sanitised again (with offset 0, say) is what it was at the summed offset. */
  lemma SliceOutcomeComposes(ds: seq<Detected>, a: real, b: real)
    ensures SliceOutcome(SliceOutcome(ds, a), b) == SliceOutcome(ds, a + b)
  {
    var once := SliceOutcome(ds, a);
    SliceOutcomeKeeps(ds, a);
    assert FirstFault(once).None? by {
      forall i | 0 <= i < |once| ensures !Faults(once[i]) {
        assert Keeps(once[i]);
      }
    }
    if FirstFault(ds).None? {
      KeptComposes(ds, a, b);
    }
  }

  /** Sanitising is idempotent once the offset has been applied. */
  lemma SliceOutcomeIdempotent(ds: seq<Detected>, offsetY: real)
    ensures SliceOutcome(SliceOutcome(ds, offsetY), 0.0) == SliceOutcome(ds, offsetY)
  {
    SliceOutcomeComposes(ds, offsetY, 0.0);
  }

  // ---------------------------------------------------------------------
  // Cutting a tall screenshot into slices
  // ---------------------------------------------------------------------

  /** `SLICE_HEIGHT`. */
  const SliceHeight: nat := 1920
  /** A trailing slice shorter than this is not analysed. */
  const MinSliceHeight: nat := 50

  /** A horizontal band `[top, bottom)` of the screenshot, analysed as part `part` (numbered from 1). */
  datatype Slice = Slice(part: nat, top: nat, bottom: nat)

  /** `math.ceil(total_height / SLICE_HEIGHT)`. */
  function SliceCount(height: nat): (n: nat)
    ensures (n - 1) * SliceHeight < height || height == 0
    ensures height <= n * SliceHeight
  {
    (height + SliceHeight - 1) / SliceHeight
  }

  /** The `i`-th band of the loop: from `i * SLICE_HEIGHT` to the next multiple or the bottom edge. */
  function SliceAt(height: nat, i: nat): Slice {
    var top := i * SliceHeight;
    Slice(i + 1, top, if top + SliceHeight < height then top + SliceHeight else height)
  }

  /** The loop skips a band shorter than the minimum unless it is the first. */
  predicate Skipped(s: Slice) {
    s.bottom - s.top < MinSliceHeight && s.part > 1
  }

  /** The bands analysed among the first `n`. */
  function Planned(height: nat, n: nat): (r: seq<Slice>)
    ensures |r| <= n
  {
    if n == 0 then []
    else
      var s := SliceAt(height, n - 1);
      Planned(height, n - 1) + (if Skipped(s) then [] else [s])
  }

  /** The bands analysed for a screenshot of the given height: the whole image when it fits in one. */
  function Plan(height: nat): (r: seq<Slice>)
    ensures r != []
  {
    if height <= SliceHeight then [Slice(1, 0, height)]
    else
      PlanShape(height);
      Planned(height, SliceCount(height))
  }

  /** Every band before the last one is full height, so none of them is skipped. */
  lemma {:induction false} PlannedFull(height: nat, m: nat)
    requires height > SliceHeight && m < SliceCount(height)
    ensures Planned(height, m) == seq(m, k requires 0 <= k < m => SliceAt(height, k))
  {
    if m > 0 {
      PlannedFull(height, m - 1);
      assert (m - 1) * SliceHeight + SliceHeight == m * SliceHeight;
      assert !Skipped(SliceAt(height, m - 1));
    }
  }

  /**
   * A tall screenshot is cut into consecutive full-height bands from the top,
   * numbered 1, 2, ...; only the last band may be lower, and it is dropped
   * exactly when it is under the minimum height.
   */
  lemma PlanShape(height: nat)
    requires height > SliceHeight
    ensures
      var n := SliceCount(height);
      var p := Planned(height, n);
      && n >= 2
      && (|p| == n || |p| == n - 1)
      && (|p| == n - 1 <==> height - (n - 1) * SliceHeight < MinSliceHeight)
      && (forall k :: 0 <= k < |p| ==> p[k] == SliceAt(height, k))
      && p[0].top == 0
      && (forall k :: 0 <= k < |p| - 1 ==> p[k].bottom == p[k + 1].top && p[k].bottom - p[k].top == SliceHeight)
      && (forall k :: 0 <= k < |p| ==> 0 < p[k].bottom - p[k].top <= SliceHeight && p[k].bottom <= height)
      && (p[|p| - 1].bottom == height || height - p[|p| - 1].bottom < MinSliceHeight)
  {
    var n := SliceCount(height);
    PlannedFull(height, n - 1);
    var last := SliceAt(height, n - 1);
    assert last.top == (n - 1) * SliceHeight;
    assert (n - 2) * SliceHeight + SliceHeight == (n - 1) * SliceHeight;
  }

  /** The bands analysed cover the image from the top without gaps down to the last one's bottom edge. */
  lemma PlanCovers(height: nat, y: nat)
    requires y < Plan(height)[|Plan(height)| - 1].bottom
    ensures exists k :: 0 <= k < |Plan(height)| && Plan(height)[k].top <= y < Plan(height)[k].bottom
  {
    var p := Plan(height);
    if height > SliceHeight {
      PlanShape(height);
      var k := y / SliceHeight;
      assert k * SliceHeight <= y < k * SliceHeight + SliceHeight;
      assert p[k].top <= y < p[k].bottom;
    } else {
      assert p[0].top <= y < p[0].bottom;
    }
  }

  /** The components of several slices, in slice order. */
  function Gathered(slices: seq<Slice>, reply: Slice -> seq<Detected>): (r: seq<Detected>)
  {
    if slices == [] then []
    else
      var s := slices[|slices| - 1];
      Gathered(slices[..|slices| - 1], reply) + SliceOutcome(reply(s), s.top as real)
  }

  lemma GatheredSnoc(slices: seq<Slice>, s: Slice, reply: Slice -> seq<Detected>)
    ensures Gathered(slices + [s], reply) == Gathered(slices, reply) + SliceOutcome(reply(s), s.top as real)
  {
    assert (slices + [s])[..|slices|] == slices;
  }

  /** Every component found passed the filter of the slice it came from. */
  lemma {:induction false} GatheredKeeps(slices: seq<Slice>, reply: Slice -> seq<Detected>)
    ensures forall i :: 0 <= i < |Gathered(slices, reply)| ==> Keeps(Gathered(slices, reply)[i])
  {
    if slices != [] {
      var init, s := slices[..|slices| - 1], slices[|slices| - 1];
      GatheredKeeps(init, reply);
      var before, part := Gathered(init, reply), SliceOutcome(reply(s), s.top as real);
      SliceOutcomeKeeps(reply(s), s.top as real);
      forall i | 0 <= i < |before + part| ensures Keeps((before + part)[i]) {
        if i >= |before| {
          assert (before + part)[i] == part[i - |before|];
        }
      }
    }
  }

  /**
   * The slicing in `analyze_image`: each band analysed (`reply` stands for
   * the decoded answer of the vision model on that band) is sanitised at
   * its top offset and its components are appended in band order.
   */
  method AnalyzeImage(height: nat, reply: Slice -> seq<Detected>) returns (slices: seq<Slice>, found: seq<Detected>)
    ensures slices == Plan(height)
    ensures found == Gathered(slices, reply)
  {
    if height <= SliceHeight {
      slices := [Slice(1, 0, height)];
      found := AnalyzeSlice(reply(slices[0]), 0);
      assert slices[..0] == [];
      return;
    }
    var count := SliceCount(height);
    slices, found := [], [];
    for i := 0 to count
      invariant slices == Planned(height, i)
      invariant found == Gathered(slices, reply)
    {
      var top := i * SliceHeight;
      var bottom := if top + SliceHeight < height then top + SliceHeight else height;
      if bottom - top < MinSliceHeight && i > 0 {
        continue;
      }
      var s := Slice(i + 1, top, bottom);
      assert s == SliceAt(height, i) && !Skipped(s);
      var part := AnalyzeSlice(reply(s), top);
      GatheredSnoc(slices, s, reply);
      ghost var old_found := found;
      slices := slices + [s];
      found := found + part;
      assert found == Gathered(slices, reply) by {
        assert found == old_found + SliceOutcome(reply(s), s.top as real);
      }
    }
  }

  /** `_analyze_single_slice` once the reply is decoded: the records are copied into a list and filtered. */
  method AnalyzeSlice(records: seq<Detected>, offsetY: nat) returns (valid: seq<Detected>)
    ensures valid == SliceOutcome(records, offsetY as real)
  {
    var data := new Detected[|records|](i requires 0 <= i < |records| => records[i]);
    assert data[..] == records;
    valid := FilterSlice(data, offsetY as real);
  }

  // ---------------------------------------------------------------------
  // The list of expected components in the prompt
  // ---------------------------------------------------------------------

  /** What the prompt reads from an expected component; a missing key is `None`. */
  datatype Expected = Expected(name: Option<string>, kind: Option<string>, textContent: Option<string>)

  /** One line of the list: `- [type] 'name' (Text: 'text')`, or the closing "and others" marker. */
  datatype PromptLine = Entry(kind: string, name: string, text: string) | More

  /** At most this many components are listed. */
  const MaxListed: nat := 50

  function OrElse(o: Option<string>, default: string): string {
    if o.Some? then o.value else default
  }

  /** The line for one component, with `Unknown` for a missing name or type and an empty text. */
  function LineOf(c: Expected): PromptLine {
    Entry(OrElse(c.kind, "Unknown"), OrElse(c.name, "Unknown"), OrElse(c.textContent, ""))
  }

  /**
   * The component list of the context-aware prompt; `None` when there are no
   * expected components and the plain prompt is used. A list of more than
   * 50 is cut to its first 50 lines and the marker.
   */
  method PromptList(expected: seq<Expected>) returns (lines: Option<seq<PromptLine>>)
    ensures lines.None? <==> expected == []
    ensures lines.Some? ==>
              && |lines.value| == (if |expected| > MaxListed then MaxListed + 1 else |expected|)
              && (forall k :: 0 <= k < |lines.value| && k < MaxListed ==> lines.value[k] == LineOf(expected[k]))
              && (|expected| > MaxListed ==> lines.value[MaxListed] == More)
  {
    if expected == [] {
      return None;
    }
    var strs: seq<PromptLine> := [];
    for i := 0 to |expected|
      invariant |strs| == i
      invariant forall k :: 0 <= k < i ==> strs[k] == LineOf(expected[k])
    {
      strs := strs + [LineOf(expected[i])];
    }
    if |strs| > MaxListed {
      strs := strs[..MaxListed] + [More];
    }
    return Some(strs);
  }
}
