/**
  The page observer injected into every page (content.js): MCQ classification of the
  selected text, the FNV-1a selection hash, the deduplicating forwarder, the overlay
  bookkeeping and the state transitions of the runtime message handler. Rendering,
  timers, focus restoration and selection-freedom plumbing are DOM work and not modelled.
 */
module ContentScript {
  import opened Wrappers
  import opened JsString
  import opened SelectionHash
  import opened Int32

  const MinLen := 10
  const MaxLen := 5000
  const DebounceMs := 120
  const OverlayTtl := 1800
  const CooldownMs := 250
  const RecentHashLimit := 5

  // ---------------------------------------------------------------- classification

  /** A regular expression compiled with the `i` flag, known by its source text. What it
      matches is left abstract: every operation that runs one takes the matcher `test`. */
  datatype Regex = Regex(source: string)

  const Prefilter := Regex(@"[A-E][\.)]|which\s+of\s+the\s+following|choose\s|select\s|option\s*[A-E]")

  const DefaultPatterns := [
    Regex(@"(?:^|\n)\s*[A-E][\.\)]\s+\S+"),
    Regex(@"which\s+of\s+the\s+following"),
    Regex(@"choose\s+(?:the\s+)?(?:best|correct|right)"),
    Regex(@"select\s+(?:the\s+)?(?:best|correct|appropriate)"),
    Regex(@"option\s*[A-E]")
  ]

  /** `patterns.some(r => r.test(text))` */
  function AnyMatches(patterns: seq<Regex>, text: string, test: (Regex, string) -> bool): (r: bool)
    ensures r <==> exists i :: 0 <= i < |patterns| && test(patterns[i], text)
  {
    if patterns == [] then false
    else if test(patterns[0], text) then true
    else
      assert forall i :: 1 <= i < |patterns| ==> patterns[i] == patterns[1..][i - 1];
      AnyMatches(patterns[1..], text, test)
  }

  /** isMCQ: length in [MinLen, MaxLen] code units, the prefilter matches, and some current pattern matches. */
  function IsMCQ(text: string, patterns: seq<Regex>, test: (Regex, string) -> bool): (r: bool)
    ensures r <==> MinLen <= JsLength(text) <= MaxLen && test(Prefilter, text)
                   && exists i :: 0 <= i < |patterns| && test(patterns[i], text)
    ensures JsLength(text) < MinLen || JsLength(text) > MaxLen ==> !r
  {
    if text == [] || JsLength(text) < MinLen then false
    else if JsLength(text) > MaxLen then false
    else if !test(Prefilter, text) then false
    else AnyMatches(patterns, text, test)
  }

  // ---------------------------------------------------------------- deduplication

  predicate Distinct(s: seq<uint32>) {
    forall i, j :: 0 <= i < j < |s| ==> s[i] != s[j]
  }

  /** `recentHashes.push(hash)`, then `shift()` once when over the limit. */
  function PushRecent(recent: seq<uint32>, hash: uint32): (r: seq<uint32>)
    ensures r != [] && r[|r| - 1] == hash
    ensures |recent| <= |r| <= |recent| + 1
    ensures |r| <= RecentHashLimit || |r| == |recent|
    ensures r == (recent + [hash])[|recent| + 1 - |r|..]
    ensures |recent| < RecentHashLimit ==> r == recent + [hash]
    ensures Distinct(recent) && hash !in recent ==> Distinct(r)
  {
    var pushed := recent + [hash];
    if |pushed| > RecentHashLimit then pushed[1..] else pushed
  }

  /** The `prepareSelection` message: the text and the time it was sent (the page URL is not modelled). */
  datatype PreparedSelection = PreparedSelection(text: string, timestamp: int)

  /** The reply to `getStatus`. */
  datatype Status = Status(active: bool, patternCount: nat, minLen: nat, maxLen: nat, debounceMs: nat,
                           overlayTtl: nat, cooldownMs: nat, focusLock: bool, selectionFreedom: bool)

  type TimerId = nat

  /** The observer's `STATE` object. */
  class PageObserver {
    var active: bool
    var focusLock: bool
    var selectionFreedom: bool
    var lastHash: Option<uint32>
    var overlayHash: Option<uint32>
    var lastSentAt: int
    var recentHashes: seq<uint32>
    var overlayTimers: seq<TimerId>
    var patterns: seq<Regex>

    /** The recent hashes form a window of at most five distinct hashes whose newest is
        `lastHash`, and there is always at least one pattern to classify with. */
    ghost predicate Valid()
      reads this
    {
      |patterns| > 0
      && |recentHashes| <= RecentHashLimit
      && Distinct(recentHashes)
      && (lastHash.None? <==> recentHashes == [])
      && (recentHashes != [] ==> lastHash == Some(recentHashes[|recentHashes| - 1]))
    }

    constructor ()
      ensures Valid()
      ensures active && focusLock && selectionFreedom
      ensures lastHash == None && overlayHash == None && lastSentAt == 0
      ensures recentHashes == [] && overlayTimers == [] && patterns == DefaultPatterns
    {
      active, focusLock, selectionFreedom := true, true, true;
      lastHash, overlayHash, lastSentAt := None, None, 0;
      recentHashes, overlayTimers := [], [];
      patterns := DefaultPatterns;
    }

    /** clearOverlays: forget the drawn hash and cancel every overlay timer. */
    method ClearOverlays()
      modifies this`overlayHash, this`overlayTimers
      ensures overlayHash == None && overlayTimers == []
    {
      overlayHash := None;
      overlayTimers := [];
    }

    /** The bookkeeping of drawOverlayForSelection: nothing when this hash is already drawn;
        otherwise clear, and when the selection has ranges keep one timer per drawn rectangle
        (`rectTimers`) and remember the hash. */
    method DrawOverlay(hash: uint32, hasRanges: bool, rectTimers: seq<TimerId>)
      modifies this`overlayHash, this`overlayTimers
      ensures old(overlayHash) == Some(hash) ==> overlayHash == old(overlayHash) && overlayTimers == old(overlayTimers)
      ensures old(overlayHash) != Some(hash) && !hasRanges ==> overlayHash == None && overlayTimers == []
      ensures old(overlayHash) != Some(hash) && hasRanges ==> overlayHash == Some(hash) && overlayTimers == rectTimers
    {
      if overlayHash == Some(hash) {
        return;
      }
      ClearOverlays();
      if !hasRanges {
        return;
      }
      overlayTimers := overlayTimers + rectTimers;
      overlayHash := Some(hash);
    }

    /** The three reasons sendSelection sends nothing once the runtime is there. */
    predicate Suppressed(hash: uint32, now: int)
      reads this
    {
      now - lastSentAt < CooldownMs || lastHash == Some(hash) || hash in recentHashes
    }

    /** sendSelection: forward the selection unless the runtime is missing, the cooldown has not
        elapsed, or the hash is the last or a recent one; on sending, record the hash. */
    method SendSelection(text: string, hash: uint32, now: int, hasRuntime: bool) returns (sent: Option<PreparedSelection>)
      requires Valid()
      modifies this`lastHash, this`lastSentAt, this`recentHashes
      ensures Valid()
      ensures !hasRuntime || old(Suppressed(hash, now)) ==>
                sent == None && lastHash == old(lastHash) && lastSentAt == old(lastSentAt)
                && recentHashes == old(recentHashes)
      ensures hasRuntime && !old(Suppressed(hash, now)) ==>
                sent == Some(PreparedSelection(text, now)) && lastHash == Some(hash) && lastSentAt == now
                && recentHashes == PushRecent(old(recentHashes), hash)
    {
      if !hasRuntime {
        return None;
      }
      if now - lastSentAt < CooldownMs {
        return None;
      }
      if lastHash == Some(hash) {
        return None;
      }
      if hash in recentHashes {
        return None;
      }
      lastHash := Some(hash);
      lastSentAt := now;
      recentHashes := PushRecent(recentHashes, hash);
      sent := Some(PreparedSelection(text, now));
    }

    /** processSelection: while active, classify the trimmed selection; a non-MCQ clears the
        overlays, an MCQ is hashed, drawn and forwarded. */
    method ProcessSelection(selection: string, now: int, hasRuntime: bool, hasRanges: bool,
                            rectTimers: seq<TimerId>, test: (Regex, string) -> bool)
      returns (sent: Option<PreparedSelection>)
      requires Valid()
      modifies this`overlayHash, this`overlayTimers, this`lastHash, this`lastSentAt, this`recentHashes
      ensures Valid()
      ensures !active ==> sent == None && unchanged(this)
      ensures active && !IsMCQ(Trim(selection), patterns, test) ==>
                sent == None && overlayHash == None && overlayTimers == []
                && lastHash == old(lastHash) && lastSentAt == old(lastSentAt) && recentHashes == old(recentHashes)
      ensures var h := TextHash(Utf16(Trim(selection)));
        active && IsMCQ(Trim(selection), patterns, test) ==>
          && (old(overlayHash) == Some(h) ==> overlayHash == old(overlayHash) && overlayTimers == old(overlayTimers))
          && (old(overlayHash) != Some(h) && !hasRanges ==> overlayHash == None && overlayTimers == [])
          && (old(overlayHash) != Some(h) && hasRanges ==> overlayHash == Some(h) && overlayTimers == rectTimers)
      ensures var h := TextHash(Utf16(Trim(selection)));
        active && IsMCQ(Trim(selection), patterns, test) && hasRuntime && !old(Suppressed(h, now)) ==>
          sent == Some(PreparedSelection(Trim(selection), now)) && lastHash == Some(h) && lastSentAt == now
          && recentHashes == PushRecent(old(recentHashes), h)
      ensures sent.Some? ==>
                active && IsMCQ(Trim(selection), patterns, test) && hasRuntime
                && !old(Suppressed(TextHash(Utf16(Trim(selection))), now))
      ensures sent.None? ==> lastHash == old(lastHash) && lastSentAt == old(lastSentAt) && recentHashes == old(recentHashes)
    {
      if !active {
        return None;
      }
      var text := Trim(selection);
      // empty, out of bounds, or not an MCQ: the three guards share one effect
      if text == [] || JsLength(text) < MinLen || JsLength(text) > MaxLen || !IsMCQ(text, patterns, test) {
        ClearOverlays();
        return None;
      }
      sent := Forward(text, now, hasRuntime, hasRanges, rectTimers);
    }

    /** The tail of processSelection once the text is an MCQ: hash it, draw it, send it. */
    method Forward(text: string, now: int, hasRuntime: bool, hasRanges: bool, rectTimers: seq<TimerId>)
      returns (sent: Option<PreparedSelection>)
      requires Valid()
      modifies this`overlayHash, this`overlayTimers, this`lastHash, this`lastSentAt, this`recentHashes
      ensures Valid()
      ensures var h := TextHash(Utf16(text));
        && (old(overlayHash) == Some(h) ==> overlayHash == old(overlayHash) && overlayTimers == old(overlayTimers))
        && (old(overlayHash) != Some(h) && !hasRanges ==> overlayHash == None && overlayTimers == [])
        && (old(overlayHash) != Some(h) && hasRanges ==> overlayHash == Some(h) && overlayTimers == rectTimers)
      ensures var h := TextHash(Utf16(text));
        !hasRuntime || old(Suppressed(h, now)) ==>
          sent == None && lastHash == old(lastHash) && lastSentAt == old(lastSentAt)
          && recentHashes == old(recentHashes)
      ensures var h := TextHash(Utf16(text));
        hasRuntime && !old(Suppressed(h, now)) ==>
          sent == Some(PreparedSelection(text, now)) && lastHash == Some(h) && lastSentAt == now
          && recentHashes == PushRecent(old(recentHashes), h)
    {
      var h := HashText(text);
      ghost var suppressed := Suppressed(h, now);
      DrawOverlay(h, hasRanges, rectTimers);
      assert Valid() && Suppressed(h, now) == suppressed;
      sent := SendSelection(text, h, now, hasRuntime);
    }

    // ------------------------------------------------------------ message handler

    /** `getSelection`: the trimmed selection and whether it classifies as an MCQ. */
    method GetSelection(selection: string, test: (Regex, string) -> bool) returns (text: string, isValid: bool)
      ensures text == Trim(selection)
      ensures isValid <==> (MinLen <= JsLength(text) <= MaxLen && test(Prefilter, text)
                           && exists i :: 0 <= i < |patterns| && test(patterns[i], text))
    {
      text := Trim(selection);
      isValid := IsMCQ(text, patterns, test);
    }

    /** `clearHighlights` (the processing indicator is not modelled). */
    method ClearHighlights() returns (success: bool)
      modifies this`overlayHash, this`overlayTimers
      ensures success && overlayHash == None && overlayTimers == []
    {
      ClearOverlays();
      success := true;
    }

    /** `toggleActive`: flip `active`; becoming inactive clears the overlays. */
    method ToggleActive() returns (nowActive: bool)
      modifies this`active, this`overlayHash, this`overlayTimers
      ensures active == !old(active) && nowActive == active
      ensures !active ==> overlayHash == None && overlayTimers == []
      ensures active ==> overlayHash == old(overlayHash) && overlayTimers == old(overlayTimers)
    {
      active := !active;
      if !active {
        ClearOverlays();
      }
      nowActive := active;
    }

    /** `setActive`: `active` becomes the truthiness of the request's value. */
    method SetActive(value: bool) returns (nowActive: bool)
      modifies this`active, this`overlayHash, this`overlayTimers
      ensures active == value && nowActive == value
      ensures !active ==> overlayHash == None && overlayTimers == []
      ensures active ==> overlayHash == old(overlayHash) && overlayTimers == old(overlayTimers)
    {
      active := value;
      if !active {
        ClearOverlays();
      }
      nowActive := active;
    }

    /** `updatePatterns`: compile every entry of an array payload in order, report the ones that
        do not compile, and adopt the compiled list only when it is not empty. A payload that is
        not an array (`None`) changes nothing. */
    method UpdatePatterns(payload: Option<seq<string>>, compiles: string -> bool)
      returns (patternCount: nat, invalid: seq<string>)
      requires Valid()
      modifies this`patterns
      ensures Valid()
      ensures payload.None? ==> patterns == old(patterns) && invalid == []
      ensures payload.Some? ==> invalid == Rejected(payload.value, compiles)
      ensures payload.Some? && Compiled(payload.value, compiles) != [] ==> patterns == Compiled(payload.value, compiles)
      ensures payload.Some? && Compiled(payload.value, compiles) == [] ==> patterns == old(patterns)
      ensures patternCount == |patterns|
    {
      invalid := [];
      if payload.Some? {
        var sources := payload.value;
        var compiled := [];
        var i := 0;
        while i < |sources|
          invariant 0 <= i <= |sources|
          invariant compiled == Compiled(sources[..i], compiles)
          invariant invalid == Rejected(sources[..i], compiles)
        {
          assert sources[..i + 1][..i] == sources[..i];
          if compiles(sources[i]) {
            compiled := compiled + [Regex(sources[i])];
          } else {
            invalid := invalid + [sources[i]];
          }
          i := i + 1;
        }
        assert sources[..i] == sources;
        assert compiled == Compiled(payload.value, compiles) && invalid == Rejected(payload.value, compiles);
        if |compiled| > 0 {
          patterns := compiled;
        }
      }
      patternCount := |patterns|;
    }

    /** `getStatus` */
    method GetStatus() returns (status: Status)
      ensures status.active == active && status.patternCount == |patterns|
      ensures status.focusLock == focusLock && status.selectionFreedom == selectionFreedom
      ensures status.minLen == MinLen && status.maxLen == MaxLen && status.debounceMs == DebounceMs
      ensures status.overlayTtl == OverlayTtl && status.cooldownMs == CooldownMs
    {
      status := Status(active, |patterns|, MinLen, MaxLen, DebounceMs, OverlayTtl, CooldownMs,
                       focusLock, selectionFreedom);
    }

    /** `toggleFocusLock` (installing the focus listeners is not modelled). */
    method ToggleFocusLock() returns (nowLocked: bool)
      modifies this`focusLock
      ensures focusLock == !old(focusLock) && nowLocked == focusLock
    {
      focusLock := !focusLock;
      nowLocked := focusLock;
    }

    /** `setFocusLock` */
    method SetFocusLock(value: bool) returns (nowLocked: bool)
      modifies this`focusLock
      ensures focusLock == value && nowLocked == value
    {
      focusLock := value;
      nowLocked := focusLock;
    }

    /** `toggleSelectionFreedom` (re-applying the selection overrides is not modelled). */
    method ToggleSelectionFreedom() returns (nowFree: bool)
      modifies this`selectionFreedom
      ensures selectionFreedom == !old(selectionFreedom) && nowFree == selectionFreedom
    {
      selectionFreedom := !selectionFreedom;
      nowFree := selectionFreedom;
    }

    /** `setSelectionFreedom` */
    method SetSelectionFreedom(value: bool) returns (nowFree: bool)
      modifies this`selectionFreedom
      ensures selectionFreedom == value && nowFree == value
    {
      selectionFreedom := value;
      nowFree := selectionFreedom;
    }

    /** teardown on `beforeunload` / `pagehide`: deactivate and drop every overlay timer. */
    method Teardown()
      modifies this`active, this`overlayHash, this`overlayTimers
      ensures !active && overlayHash == None && overlayTimers == []
    {
      active := false;
      overlayTimers := [];
      ClearOverlays();
    }
  }

  /** `compiled`: the entries that compile, as regexes, in input order. */
  function Compiled(sources: seq<string>, compiles: string -> bool): (r: seq<Regex>)
    ensures |r| <= |sources|
    decreases |sources|
  {
    if sources == [] then []
    else
      var init, last := sources[..|sources| - 1], sources[|sources| - 1];
      Compiled(init, compiles) + (if compiles(last) then [Regex(last)] else [])
  }

  /** `invalid`: the entries that do not compile, in input order. */
  function Rejected(sources: seq<string>, compiles: string -> bool): (r: seq<string>)
    ensures |r| <= |sources|
    decreases |sources|
  {
    if sources == [] then []
    else
      var init, last := sources[..|sources| - 1], sources[|sources| - 1];
      Rejected(init, compiles) + (if compiles(last) then [] else [last])
  }

  /** The compiled patterns are exactly the entries that compile. */
  lemma {:induction false} CompiledMembers(sources: seq<string>, compiles: string -> bool)
    ensures forall i :: 0 <= i < |Compiled(sources, compiles)| ==>
      compiles(Compiled(sources, compiles)[i].source) && Compiled(sources, compiles)[i].source in sources
    ensures forall p :: p in sources && compiles(p) ==> Regex(p) in Compiled(sources, compiles)
    decreases |sources|
  {
    if sources != [] {
      var init, last := sources[..|sources| - 1], sources[|sources| - 1];
      assert sources == init + [last];
      CompiledMembers(init, compiles);
    }
  }

  /** The rejected entries are exactly the entries that do not compile. */
  lemma {:induction false} RejectedMembers(sources: seq<string>, compiles: string -> bool)
    ensures forall i :: 0 <= i < |Rejected(sources, compiles)| ==>
      !compiles(Rejected(sources, compiles)[i]) && Rejected(sources, compiles)[i] in sources
    ensures forall p :: p in sources && !compiles(p) ==> p in Rejected(sources, compiles)
    decreases |sources|
  {
    if sources != [] {
      var init, last := sources[..|sources| - 1], sources[|sources| - 1];
      assert sources == init + [last];
      RejectedMembers(init, compiles);
    }
  }

  /** Every entry ends up in exactly one of the two lists. */
  lemma {:induction false} CompiledRejectedPartition(sources: seq<string>, compiles: string -> bool)
    ensures |Compiled(sources, compiles)| + |Rejected(sources, compiles)| == |sources|
    decreases |sources|
  {
    if sources != [] {
      CompiledRejectedPartition(sources[..|sources| - 1], compiles);
    }
  }

  /** A second selection with the hash just sent is suppressed, whatever the time. */
  method SecondSendSuppressed(o: PageObserver, text: string, hash: uint32, now: int, later: int)
    returns (first: Option<PreparedSelection>, second: Option<PreparedSelection>)
    requires o.Valid()
    modifies o
    ensures o.Valid()
    ensures first.Some? ==> second == None && o.lastHash == Some(hash) && o.lastSentAt == now
  {
    first := o.SendSelection(text, hash, now, true);
    second := None;
    if first.Some? {
      second := o.SendSelection(text, hash, later, true);
    }
  }
}
