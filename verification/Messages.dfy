/** The durable status message of a transaction: the truncation functions of evm/txmngr/txmngr.go. */
module Messages {
  import opened TxTypes

  type Byte = n: nat | n < 256
  type Bytes = seq<Byte>

  const MAX_MESSAGE: nat := 512
  const MAX_PRIMARY: nat := MAX_MESSAGE / 2

  /** "; reconciliation: " has one semicolon, its first byte, so it can not overlap itself. */
  function Separator(): (r: Bytes)
    ensures |r| == 18 && (forall i :: 0 <= i < |r| ==> r[i] < 0x80)
    ensures forall i :: 0 <= i < |r| ==> (r[i] == 59 <==> i == 0) && r[i] != 46
  {
    [59, 32, 114, 101, 99, 111, 110, 99, 105, 108, 105, 97, 116, 105, 111, 110, 58, 32]
  }

  /** "..." */
  const OMISSION: Bytes := [46, 46, 46]

  // ----- UTF-8, section 3 of RFC 3629 -----

  predicate Continuation(b: Byte) {
    0x80 <= b <= 0xBF
  }

  predicate RuneStart(b: Byte) {
    !Continuation(b)
  }

  /** The range of the second byte that a lead byte of a longer sequence allows. */
  predicate SecondOk(lead: Byte, b: Byte) {
    match lead
    case 0xE0 => 0xA0 <= b <= 0xBF
    case 0xED => 0x80 <= b <= 0x9F
    case 0xF0 => 0x90 <= b <= 0xBF
    case 0xF4 => 0x80 <= b <= 0x8F
    case _ => Continuation(b)
  }

  function LeadLength(b: Byte): nat {
    if b < 0x80 then 1
    else if 0xC2 <= b <= 0xDF then 2
    else if 0xE0 <= b <= 0xEF then 3
    else if 0xF0 <= b <= 0xF4 then 4
    else 0
  }

  /** Length of the well-formed character at the front, 0 when there is none. */
  function RuneLen(s: Bytes): (r: nat)
    ensures r <= |s| && r <= 4
  {
    if s == [] then 0
    else
      var n := LeadLength(s[0]);
      if n == 0 || |s| < n then 0
      else if n >= 2 && !SecondOk(s[0], s[1]) then 0
      else if n >= 3 && !Continuation(s[2]) then 0
      else if n == 4 && !Continuation(s[3]) then 0
      else n
  }

  predicate Valid(s: Bytes) {
    s == [] || (RuneLen(s) > 0 && Valid(s[RuneLen(s)..]))
  }

  /** strings.ToValidUTF8 with an empty replacement. */
  function ToValid(s: Bytes): Bytes {
    if s == [] then []
    else if RuneLen(s) > 0 then s[..RuneLen(s)] + ToValid(s[RuneLen(s)..])
    else ToValid(s[1..])
  }

  lemma RuneIsLocal(s: Bytes, t: Bytes)
    requires RuneLen(s) > 0 && RuneLen(s) <= |t| && t[..RuneLen(s)] == s[..RuneLen(s)]
    ensures RuneLen(t) == RuneLen(s)
  {
    var k := RuneLen(s);
    assert forall i :: 0 <= i < k ==> t[i] == t[..k][i] && s[i] == s[..k][i];
  }

  lemma {:induction false} ToValidIsValid(s: Bytes)
    ensures Valid(ToValid(s)) && |ToValid(s)| <= |s|
    ensures Valid(s) ==> ToValid(s) == s
  {
    hide RuneLen, Valid;
    ToValidStep(s);
    if s != [] {
      var k := RuneLen(s);
      if k > 0 {
        ToValidIsValid(s[k..]);
        ValidStep(s[..k] + ToValid(s[k..]), s, k);
        assert (s[..k] + ToValid(s[k..]))[k..] == ToValid(s[k..]);
        ValidStep(s, s, k);
        assert s == s[..k] + s[k..];
      } else {
        ToValidIsValid(s[1..]);
        NotValid(s);
      }
    }
  }

  lemma ToValidStep(s: Bytes)
    ensures s == [] ==> ToValid(s) == [] && Valid([])
    ensures s != [] ==>
      ToValid(s) == if RuneLen(s) > 0 then s[..RuneLen(s)] + ToValid(s[RuneLen(s)..]) else ToValid(s[1..])
  {
    hide RuneLen;
  }

  /** A text that begins with a character of s is valid exactly when what follows is. */
  lemma ValidStep(t: Bytes, s: Bytes, k: nat)
    requires k == RuneLen(s) > 0 && k <= |t| && t[..k] == s[..k]
    ensures Valid(t) <==> Valid(t[k..])
  {
    RuneIsLocal(s, t);
    hide RuneLen;
  }

  lemma NotValid(s: Bytes)
    requires s != [] && RuneLen(s) == 0
    ensures !Valid(s)
  {
    hide RuneLen;
  }

  lemma {:induction false} ValidConcat(a: Bytes, b: Bytes)
    requires Valid(a) && Valid(b)
    ensures Valid(a + b)
  {
    hide RuneLen;
    if a == [] {
      assert a + b == b;
    } else {
      var k := RuneLen(a);
      ValidConcat(a[k..], b);
      RuneIsLocal(a, a + b);
      assert (a + b)[k..] == a[k..] + b;
    }
  }

  lemma {:induction false} ValidRest(a: Bytes, b: Bytes)
    requires Valid(a) && Valid(a + b)
    ensures Valid(b)
  {
    hide RuneLen;
    if a == [] {
      assert a + b == b;
    } else {
      var k := RuneLen(a);
      RuneIsLocal(a, a + b);
      assert (a + b)[k..] == a[k..] + b;
      ValidRest(a[k..], b);
    }
  }

  lemma StartsRune(s: Bytes)
    requires Valid(s) && s != []
    ensures RuneStart(s[0]) && forall i :: 0 < i < RuneLen(s) ==> !RuneStart(s[i])
  {
  }

  predicate Boundary(s: Bytes, p: nat) {
    p == |s| || (p < |s| && RuneStart(s[p]))
  }

  /** A valid text may be cut before any byte that starts a character. */
  lemma {:induction false} Cut(s: Bytes, p: nat)
    requires Valid(s) && p <= |s| && (p == 0 || Boundary(s, p))
    ensures Valid(s[..p]) && Valid(s[p..])
  {
    hide RuneLen;
    if p == 0 {
      assert s[0..] == s;
    } else {
      var k := RuneLen(s);
      StartsRune(s);
      assert p >= k;
      Cut(s[k..], p - k);
      RuneIsLocal(s, s[..p]);
      assert s[..p][k..] == s[k..][..p - k];
      assert s[k..][p - k..] == s[p..];
    }
  }

  // ----- messageTail -----

  /** The first character start at or after i. */
  function SkipForward(s: Bytes, i: nat): (r: nat)
    requires i <= |s|
    ensures i <= r <= |s| && Boundary(s, r) && forall j :: i <= j < r ==> !RuneStart(s[j])
    decreases |s| - i
  {
    if i == |s| || RuneStart(s[i]) then i else SkipForward(s, i + 1)
  }

  function Tail(message: Bytes, maxBytes: nat): Bytes {
    var m := ToValid(message);
    if |m| <= maxBytes then m else m[SkipForward(m, |m| - maxBytes)..]
  }

  method MessageTail(message: Bytes, maxBytes: nat) returns (r: Bytes)
    ensures r == Tail(message, maxBytes)
  {
    var m := ToValid(message);
    if |m| <= maxBytes {
      return m;
    }
    var start := |m| - maxBytes;
    while start < |m| && !RuneStart(m[start])
      invariant |m| - maxBytes <= start <= |m|
      invariant SkipForward(m, |m| - maxBytes) == SkipForward(m, start)
    {
      start := start + 1;
    }
    return m[start..];
  }

  lemma TailBounded(message: Bytes, maxBytes: nat)
    ensures Valid(Tail(message, maxBytes)) && |Tail(message, maxBytes)| <= maxBytes
    ensures Valid(message) && |message| <= maxBytes ==> Tail(message, maxBytes) == message
  {
    hide Valid, ToValid;
    ToValidIsValid(message);
    var m := ToValid(message);
    if |m| > maxBytes {
      Cut(m, SkipForward(m, |m| - maxBytes));
    }
  }

  /** The tail is the longest valid suffix that fits. */
  lemma TailIsLongest(a: Bytes, b: Bytes, maxBytes: nat)
    requires Valid(a) && Valid(b) && |b| <= maxBytes
    ensures EndsWith(Tail(a + b, maxBytes), b)
  {
    hide Valid, ToValid, RuneLen;
    ValidConcat(a, b);
    ToValidIsValid(a + b);
    if b != [] {
      StartsRune(b);
      assert (a + b)[|a|] == b[0];
    }
  }

  // ----- messageHeadAndTail -----

  /** The last character start at or before i, or 0. */
  function SkipBack(s: Bytes, i: nat): (r: nat)
    requires i < |s|
    ensures r <= i && (r == 0 || RuneStart(s[r])) && forall j :: r < j <= i ==> !RuneStart(s[j])
  {
    if i == 0 || RuneStart(s[i]) then i else SkipBack(s, i - 1)
  }

  function HeadAndTail(message: Bytes, maxBytes: int): Bytes {
    var m := ToValid(message);
    if maxBytes <= 0 then []
    else if |m| <= maxBytes then m
    else if maxBytes <= |OMISSION| then Tail(m, maxBytes)
    else
      var contentBytes := maxBytes - |OMISSION|;
      var tailBytes := contentBytes / 2;
      m[..SkipBack(m, contentBytes - tailBytes)] + OMISSION + Tail(m, tailBytes)
  }

  method HeadEnd(m: Bytes, from: nat) returns (headEnd: nat)
    requires from < |m|
    ensures headEnd == SkipBack(m, from)
  {
    headEnd := from;
    while headEnd > 0 && !RuneStart(m[headEnd])
      invariant headEnd <= from && SkipBack(m, from) == SkipBack(m, headEnd)
    {
      headEnd := headEnd - 1;
    }
  }

  method MessageHeadAndTail(message: Bytes, maxBytes: int) returns (r: Bytes)
    ensures r == HeadAndTail(message, maxBytes)
  {
    hide Tail, ToValid, SkipBack;
    var m := ToValid(message);
    if maxBytes <= 0 {
      return [];
    }
    if |m| <= maxBytes {
      return m;
    }
    if maxBytes <= |OMISSION| {
      r := MessageTail(m, maxBytes);
      return;
    }
    var contentBytes := maxBytes - |OMISSION|;
    var tailBytes := contentBytes / 2;
    var headEnd := HeadEnd(m, contentBytes - tailBytes);
    var tail := MessageTail(m, tailBytes);
    return m[..headEnd] + OMISSION + tail;
  }

  lemma MarkersValid()
    ensures Valid(OMISSION) && Valid(Separator())
  {
    hide Valid, Separator;
    AsciiValid(OMISSION);
    AsciiValid(Separator());
  }

  lemma {:induction false} AsciiValid(s: Bytes)
    requires forall i :: 0 <= i < |s| ==> s[i] < 0x80
    ensures Valid(s)
  {
    if s != [] {
      AsciiValid(s[1..]);
    }
  }

  lemma HeadAndTailBounded(message: Bytes, maxBytes: int)
    ensures Valid(HeadAndTail(message, maxBytes))
    ensures |HeadAndTail(message, maxBytes)| <= if maxBytes <= 0 then 0 else maxBytes
    ensures Valid(message) && |message| <= maxBytes ==> HeadAndTail(message, maxBytes) == message
  {
    hide Valid, ToValid, Tail;
    ToValidIsValid(message);
    AsciiValid([]);
    var m := ToValid(message);
    if 0 < maxBytes < |m| {
      if maxBytes <= |OMISSION| {
        TailBounded(m, maxBytes);
      } else {
        var tailBytes := (maxBytes - |OMISSION|) / 2;
        var head := SkipBack(m, maxBytes - |OMISSION| - tailBytes);
        TailBounded(m, tailBytes);
        Cut(m, head);
        MarkersValid();
        ValidConcat(m[..head], OMISSION);
        ValidConcat(m[..head] + OMISSION, Tail(m, tailBytes));
      }
    }
  }

  /** A position where a valid text can be cut is a character start, or the end. */
  lemma CutsAtStart(m: Bytes, p: nat)
    requires p <= |m| && Valid(m[p..])
    ensures Boundary(m, p)
  {
    hide Valid, RuneLen;
    if p < |m| {
      StartsRune(m[p..]);
      assert m[p..][0] == m[p];
    }
  }

  lemma HeadSurvives(m: Bytes, head: Bytes, from: nat)
    requires Valid(m) && Valid(head) && head <= m && |head| <= from < |m|
    ensures head <= m[..SkipBack(m, from)]
  {
    hide Valid, RuneStart, SkipBack;
    assert head + m[|head|..] == m;
    ValidRest(head, m[|head|..]);
    CutsAtStart(m, |head|);
    assert |head| <= SkipBack(m, from);
  }

  lemma TailSurvives(m: Bytes, tail: Bytes, maxBytes: nat)
    requires Valid(m) && Valid(tail) && EndsWith(m, tail) && |tail| <= maxBytes
    ensures EndsWith(Tail(m, maxBytes), tail)
  {
    hide Valid, RuneLen, Tail;
    var n := |m| - |tail|;
    assert m[n..] == tail && m[..n] + tail == m;
    CutsAtStart(m, n);
    Cut(m, n);
    TailIsLongest(m[..n], tail, maxBytes);
  }

  /** Both ends survive: a valid beginning that fits in the larger half of the budget and a valid end that fits in the
      smaller half stay the beginning and the end of what is kept. */
  lemma BothEndsSurvive(message: Bytes, head: Bytes, tail: Bytes, maxBytes: nat)
    requires Valid(message) && Valid(head) && Valid(tail) && head <= message && EndsWith(message, tail)
    requires maxBytes > |OMISSION| && |tail| <= (maxBytes - |OMISSION|) / 2
    requires |head| <= maxBytes - |OMISSION| - (maxBytes - |OMISSION|) / 2
    ensures head <= HeadAndTail(message, maxBytes) && EndsWith(HeadAndTail(message, maxBytes), tail)
  {
    hide Valid, Tail, EndsWith, SkipBack, HeadAndTail;
    HeadAndTailIs(message, maxBytes);
    if |message| > maxBytes {
      var tailBytes := (maxBytes - |OMISSION|) / 2;
      var from := maxBytes - |OMISSION| - tailBytes;
      HeadSurvives(message, head, from);
      TailSurvives(message, tail, tailBytes);
      EndsWithAfter(message[..SkipBack(message, from)] + OMISSION, Tail(message, tailBytes), tail);
    }
  }

  lemma HeadAndTailIs(message: Bytes, maxBytes: nat)
    requires Valid(message) && maxBytes > |OMISSION|
    ensures |message| <= maxBytes ==> HeadAndTail(message, maxBytes) == message
    ensures |message| > maxBytes ==>
      var tailBytes := (maxBytes - |OMISSION|) / 2;
      var from := maxBytes - |OMISSION| - tailBytes;
      HeadAndTail(message, maxBytes) == message[..SkipBack(message, from)] + OMISSION + Tail(message, tailBytes)
  {
    hide Valid, ToValid, Tail, SkipBack;
    ToValidIsValid(message);
  }

  // ----- appendReconciliationError -----

  predicate OccursAt(s: Bytes, part: Bytes, i: nat) {
    i + |part| <= |s| && s[i..i + |part|] == part
  }

  predicate Contains(s: Bytes, part: Bytes) {
    exists i :: 0 <= i < |s| && OccursAt(s, part, i)
  }

  /** strings.Index from position i on: the first occurrence, |s| when there is none. */
  function IndexFrom(s: Bytes, part: Bytes, i: nat): (r: nat)
    requires i <= |s|
    ensures i <= r <= |s| && (r == |s| || OccursAt(s, part, r))
    ensures forall j :: i <= j < r ==> !OccursAt(s, part, j)
    decreases |s| - i
  {
    if i == |s| || OccursAt(s, part, i) then i else IndexFrom(s, part, i + 1)
  }

  /** An absent error is None. */
  function AppendReconciliationError(message: Bytes, err: Option<Bytes>): Bytes {
    var m := ToValid(message);
    if err.None? then Tail(m, MAX_MESSAGE)
    else
      var detail := ToValid(err.value);
      if m == [] then Tail(detail, MAX_MESSAGE)
      else
        var combined := m + Separator() + detail;
        if |combined| <= MAX_MESSAGE then combined
        else Shortened(m, detail)
  }

  /** Message, separator and detail cut down to the limit: the primary reason, and the end of what followed it. */
  function Shortened(m: Bytes, detail: Bytes): Bytes {
    var combined := m + Separator() + detail;
    var primaryEnd := IndexFrom(m, Separator(), 0);
    var primary := HeadAndTail(m[..primaryEnd], MAX_PRIMARY);
    var tailBytes := MAX_MESSAGE - |primary| - |Separator()|;
    if tailBytes <= 0 then Tail(combined, MAX_MESSAGE)
    else primary + Separator() + Tail(combined[primaryEnd + |Separator()|..], tailBytes)
  }

  /** Whatever bytes come in, the durable message is valid UTF-8 of at most 512 bytes. */
  lemma AppendBounded(message: Bytes, err: Option<Bytes>)
    ensures Valid(AppendReconciliationError(message, err)) && |AppendReconciliationError(message, err)| <= MAX_MESSAGE
  {
    hide Valid, ToValid, Tail, Shortened, Separator;
    var m := ToValid(message);
    ToValidIsValid(message);
    MarkersValid();
    if err.None? {
      TailBounded(m, MAX_MESSAGE);
    } else {
      var detail := ToValid(err.value);
      ToValidIsValid(err.value);
      if m == [] {
        TailBounded(detail, MAX_MESSAGE);
      } else {
        ValidConcat(m, Separator());
        ValidConcat(m + Separator(), detail);
        ShortenedBounded(m, detail);
      }
    }
  }

  lemma ShortenedBounded(m: Bytes, detail: Bytes)
    ensures Valid(Shortened(m, detail)) && |Shortened(m, detail)| <= MAX_MESSAGE
  {
    hide Valid, ToValid, Tail, HeadAndTail, Separator;
    MarkersValid();
    var combined := m + Separator() + detail;
    var primaryEnd := IndexFrom(m, Separator(), 0);
    var primary := HeadAndTail(m[..primaryEnd], MAX_PRIMARY);
    HeadAndTailBounded(m[..primaryEnd], MAX_PRIMARY);
    var rest := combined[primaryEnd + |Separator()|..];
    TailBounded(rest, MAX_MESSAGE - |primary| - |Separator()|);
    ValidConcat(primary, Separator());
    ValidConcat(primary + Separator(), Tail(rest, MAX_MESSAGE - |primary| - |Separator()|));
  }

  /** The message is the primary reason, or the reason and then the separator: nothing overlaps the cut. */
  predicate Led(message: Bytes, reason: Bytes) {
    message == reason || reason + Separator() <= message
  }

  /** A reason that the durable message must keep. */
  predicate Primary(reason: Bytes) {
    reason != [] && Valid(reason) && |reason| <= MAX_PRIMARY && !Contains(reason, Separator())
  }

  lemma NoEarlierSeparator(message: Bytes, reason: Bytes, j: nat)
    requires Led(message, reason) && !Contains(reason, Separator()) && j < |reason|
    ensures !OccursAt(message, Separator(), j)
  {
    hide Separator;
    var n, len := |reason|, |Separator()|;
    assert !OccursAt(reason, Separator(), j);
    assert message[..n] == reason;
    if j + len <= n {
      assert message[j..j + len] == reason[j..j + len];
    } else if message != reason && j + len <= |message| {
      assert message[n] == (reason + Separator())[n] == 59;
      assert message[j..j + len][n - j] == message[n];
    }
  }

  lemma FirstSeparator(message: Bytes, reason: Bytes)
    requires Led(message, reason) && !Contains(reason, Separator())
    ensures IndexFrom(message, Separator(), 0) == |reason|
  {
    hide Separator, Contains;
    var n := |reason|;
    forall j | 0 <= j < n ensures !OccursAt(message, Separator(), j) {
      NoEarlierSeparator(message, reason, j);
    }
    if message != reason {
      assert message[n..n + |Separator()|] == (reason + Separator())[n..n + |Separator()|] == Separator();
      assert OccursAt(message, Separator(), n);
    }
  }

  lemma AppendKeepsReason(message: Bytes, err: Option<Bytes>, reason: Bytes)
    requires Primary(reason) && Led(message, reason) && Valid(message) && |message| <= MAX_MESSAGE
    ensures Led(AppendReconciliationError(message, err), reason)
  {
    hide Valid, Separator, Contains, AppendReconciliationError;
    if err.None? {
      NothingIsLost(message, message);
    } else {
      var detail := ToValid(err.value);
      Sanitised(message, err.value);
      NothingIsLost(message, detail);
      if |message| + |Separator()| + |detail| > MAX_MESSAGE {
        OverflowIs(message, detail, reason);
      } else {
        LedOn(message, reason, detail);
      }
    }
  }

  /** Only the valid part of an error counts. */
  lemma Sanitised(message: Bytes, detail: Bytes)
    ensures Valid(ToValid(detail))
    ensures AppendReconciliationError(message, Some(detail)) ==
            AppendReconciliationError(message, Some(ToValid(detail)))
  {
    hide ToValid, Tail, Shortened, Separator;
    ToValidIsValid(detail);
    ToValidIsValid(ToValid(detail));
  }

  lemma LedOn(message: Bytes, reason: Bytes, detail: Bytes)
    requires Led(message, reason)
    ensures Led(message + Separator() + detail, reason)
  {
    hide Separator;
    if message == reason {
      assert reason + Separator() <= message + Separator() + detail;
    } else {
      assert reason + Separator() <= message <= message + Separator() + detail;
    }
  }

  function AppendAll(message: Bytes, errs: seq<Option<Bytes>>): Bytes {
    if errs == [] then message
    else AppendReconciliationError(AppendAll(message, errs[..|errs| - 1]), errs[|errs| - 1])
  }

  /** Over any sequence of appended errors the reason stays the verbatim prefix of a valid, bounded message. */
  lemma {:induction false} ReasonSurvives(reason: Bytes, errs: seq<Option<Bytes>>)
    requires Primary(reason)
    ensures
      var message := AppendAll(reason, errs);
      Valid(message) && |message| <= MAX_MESSAGE && reason <= message && Led(message, reason)
  {
    hide Valid, AppendReconciliationError, Contains, Separator;
    if errs != [] {
      var before := AppendAll(reason, errs[..|errs| - 1]);
      ReasonSurvives(reason, errs[..|errs| - 1]);
      AppendKeepsReason(before, errs[|errs| - 1], reason);
      AppendBounded(before, errs[|errs| - 1]);
    }
  }

  predicate EndsWith(s: Bytes, end: Bytes) {
    |end| <= |s| && s[|s| - |end|..] == end
  }

  lemma EndsWithAfter(front: Bytes, s: Bytes, end: Bytes)
    requires EndsWith(s, end)
    ensures EndsWith(front + s, end)
  {
    assert (front + s)[|front| + |s| - |end|..] == s[|s| - |end|..];
  }

  /** Whatever came before, the newest error stays legible: one of at most 238 bytes ends the message verbatim. */
  lemma LatestErrorSurvives(message: Bytes, detail: Bytes)
    requires Valid(detail) && |detail| <= MAX_MESSAGE - MAX_PRIMARY - |Separator()|
    ensures EndsWith(AppendReconciliationError(message, Some(detail)), detail)
  {
    hide Valid, ToValid, Tail, Shortened, Separator, EndsWith;
    var m := ToValid(message);
    ToValidIsValid(message);
    ToValidIsValid(detail);
    TailBounded(detail, MAX_MESSAGE);
    assert EndsWith(detail, detail) by { WholeEnds(detail); }
    EndsWithAfter(m + Separator(), detail, detail);
    ShortenedEnds(m, detail);
  }

  /** What fits is kept as it is. */
  lemma NothingIsLost(message: Bytes, detail: Bytes)
    requires Valid(message) && Valid(detail)
    ensures |message| <= MAX_MESSAGE ==> AppendReconciliationError(message, None) == message
    ensures message == [] && |detail| <= MAX_MESSAGE ==> AppendReconciliationError(message, Some(detail)) == detail
    ensures message != [] && |message| + |Separator()| + |detail| <= MAX_MESSAGE ==>
      AppendReconciliationError(message, Some(detail)) == message + Separator() + detail
  {
    hide Valid, ToValid, Tail, Shortened, Separator;
    ToValidIsValid(message);
    ToValidIsValid(detail);
    TailBounded(message, MAX_MESSAGE);
    TailBounded(detail, MAX_MESSAGE);
  }

  /** What does not fit loses its middle and nothing else: after the reason, every valid end of the history that the
      rest of the budget holds is kept. */
  lemma RecentHistorySurvives(message: Bytes, detail: Bytes, reason: Bytes, older: Bytes, recent: Bytes)
    requires Primary(reason) && Led(message, reason) && Valid(message) && Valid(detail)
    requires Valid(older) && Valid(recent) && |recent| <= MAX_MESSAGE - |reason| - |Separator()|
    requires message + Separator() + detail == reason + Separator() + (older + recent)
    requires |message| + |Separator()| + |detail| > MAX_MESSAGE
    ensures reason + Separator() <= AppendReconciliationError(message, Some(detail))
    ensures EndsWith(AppendReconciliationError(message, Some(detail)), recent)
  {
    hide Valid, ToValid, Tail, HeadAndTail, Separator, Contains, EndsWith, OccursAt;
    OverflowIs(message, detail, reason);
    Behind(reason + Separator(), older + recent);
    var budget := MAX_MESSAGE - |reason| - |Separator()|;
    var kept := Tail(older + recent, budget);
    assert AppendReconciliationError(message, Some(detail)) == reason + Separator() + kept;
    TailEnds(reason + Separator(), older, recent, budget);
  }

  lemma Behind(front: Bytes, rest: Bytes)
    ensures (front + rest)[|front|..] == rest && front <= front + rest
  {
  }

  /** A message that does not fit is the reason, the separator and the end of what followed. */
  lemma OverflowIs(message: Bytes, detail: Bytes, reason: Bytes)
    requires Primary(reason) && Led(message, reason) && Valid(message) && Valid(detail)
    requires |message| + |Separator()| + |detail| > MAX_MESSAGE
    ensures AppendReconciliationError(message, Some(detail)) ==
            reason + Separator() + Tail((message + Separator() + detail)[|reason| + |Separator()|..],
                                        MAX_MESSAGE - |reason| - |Separator()|)
  {
    hide Valid, ToValid, Tail, HeadAndTail, Separator, Contains, OccursAt;
    ToValidIsValid(message);
    ToValidIsValid(detail);
    FirstSeparator(message, reason);
    assert message[..|reason|] == reason;
    HeadAndTailBounded(reason, MAX_PRIMARY);
  }

  lemma SliceFront(a: Bytes, b: Bytes, n: nat)
    requires n <= |a|
    ensures (a + b)[n..] == a[n..] + b
  {
  }

  lemma ShortenedEnds(m: Bytes, detail: Bytes)
    requires Valid(m) && Valid(detail) && |detail| <= MAX_MESSAGE - MAX_PRIMARY - |Separator()|
    ensures EndsWith(Shortened(m, detail), detail)
  {
    hide Valid, ToValid, Tail, HeadAndTail, Separator, EndsWith, OccursAt;
    var combined := m + Separator() + detail;
    var p := IndexFrom(m, Separator(), 0);
    var primary := HeadAndTail(m[..p], MAX_PRIMARY);
    HeadAndTailBounded(m[..p], MAX_PRIMARY);
    HistoryValid(m, p);
    SliceFront(m + Separator(), detail, p + |Separator()|);
    TailEnds(primary + Separator(), (m + Separator())[p + |Separator()|..], detail,
             MAX_MESSAGE - |primary| - |Separator()|);
  }

  lemma TailEnds(front: Bytes, before: Bytes, detail: Bytes, maxBytes: nat)
    requires Valid(before) && Valid(detail) && |detail| <= maxBytes
    ensures EndsWith(front + Tail(before + detail, maxBytes), detail)
  {
    hide Valid, Tail, EndsWith;
    TailIsLongest(before, detail, maxBytes);
    EndsWithAfter(front, Tail(before + detail, maxBytes), detail);
  }

  lemma WholeEnds(s: Bytes)
    ensures EndsWith(s, s)
  {
  }

  lemma HistoryValid(m: Bytes, p: nat)
    requires Valid(m) && (p == |m| || OccursAt(m, Separator(), p))
    ensures Valid((m + Separator())[p + |Separator()|..])
  {
    hide Valid, Separator;
    MarkersValid();
    if p == |m| {
      assert (m + Separator())[p + |Separator()|..] == [];
      AsciiValid([]);
    } else {
      assert m[p] == m[p..p + |Separator()|][0];
      Cut(m, p);
      ValidConcat(m[..p], Separator());
      ValidConcat(m, Separator());
      var rest := (m + Separator())[p + |Separator()|..];
      assert m + Separator() == (m[..p] + Separator()) + rest;
      ValidRest(m[..p] + Separator(), rest);
    }
  }

  // ----- broadcastAttemptReason -----

  function HexDigit(n: nat): Byte
    requires n < 16
  {
    if n < 10 then 48 + n else 87 + n
  }

  function HexDigits(hash: Bytes): (r: Bytes)
    ensures |r| == 2 * |hash| && forall i :: 0 <= i < |r| ==> r[i] < 0x80 && r[i] != 59
  {
    if hash == [] then [] else [HexDigit(hash[0] / 16), HexDigit(hash[0] % 16)] + HexDigits(hash[1..])
  }

  /** "broadcast attempt 0x" */
  function AttemptLabel(): (r: Bytes)
    ensures |r| == 20 && forall i :: 0 <= i < |r| ==> r[i] < 0x80 && r[i] != 59
  {
    [98, 114, 111, 97, 100, 99, 97, 115, 116, 32, 97, 116, 116, 101, 109, 112, 116, 32, 48, 120]
  }

  /** The label, the 32-byte hash in hex and ": ". */
  function AttemptPrefix(hash: Bytes): (r: Bytes)
    requires |hash| == 32
    ensures |r| == 86 && forall i :: 0 <= i < |r| ==> r[i] < 0x80 && r[i] != 59
  {
    AttemptLabel() + HexDigits(hash) + [58, 32]
  }

  function BroadcastAttemptReason(hash: Bytes, detail: Bytes): Bytes
    requires |hash| == 32
  {
    var prefix := AttemptPrefix(hash);
    var detailBytes := MAX_PRIMARY - |prefix|;
    if detailBytes <= 0 then HeadAndTail(prefix, MAX_PRIMARY) else prefix + HeadAndTail(detail, detailBytes)
  }

  lemma SliceOfSlice(s: Bytes, a: nat, b: nat, i: nat, k: nat)
    requires a + i + k <= b <= |s|
    ensures s[a..b][i..i + k] == s[a + i..a + i + k]
  {
    var part, whole := s[a..b][i..i + k], s[a + i..a + i + k];
    forall j | 0 <= j < k ensures part[j] == whole[j] {
      assert s[a..b][i + j] == s[a + i + j];
    }
  }

  lemma PartFree(s: Bytes, a: nat, b: nat)
    requires a <= b <= |s| && !Contains(s, Separator())
    ensures !Contains(s[a..b], Separator())
  {
    hide Separator;
    forall i | 0 <= i < b - a ensures !OccursAt(s[a..b], Separator(), i) {
      assert !OccursAt(s, Separator(), a + i);
      if a + i + |Separator()| <= b {
        SliceOfSlice(s, a, b, i, |Separator()|);
      }
    }
  }

  /** No separator lies across the omission marker. */
  lemma MarkedFree(x: Bytes, y: Bytes)
    requires !Contains(x, Separator()) && !Contains(y, Separator())
    ensures !Contains(x + OMISSION + y, Separator())
  {
    hide Separator;
    var z, n, k := x + OMISSION + y, |x|, |Separator()|;
    assert forall p :: n <= p < n + 3 ==> z[p] == 46;
    forall i | 0 <= i < |z| ensures !OccursAt(z, Separator(), i) {
      if i + k <= n {
        assert !OccursAt(x, Separator(), i) && z[i..i + k] == x[i..i + k];
      } else if i >= n + 3 {
        assert !OccursAt(y, Separator(), i - n - 3);
        assert i + k <= |z| ==> z[i..i + k] == y[i - n - 3..i - n - 3 + k];
      } else if i + k <= |z| {
        var p := if i < n then n else i;
        assert z[i..i + k][p - i] == z[p] == 46;
      }
    }
  }

  /** No separator begins in a text without semicolons. */
  lemma PrefixedFree(prefix: Bytes, y: Bytes)
    requires (forall i :: 0 <= i < |prefix| ==> prefix[i] != 59) && !Contains(y, Separator())
    ensures !Contains(prefix + y, Separator())
  {
    hide Separator;
    var z, n, k := prefix + y, |prefix|, |Separator()|;
    forall i | 0 <= i < |z| ensures !OccursAt(z, Separator(), i) {
      if i < n {
        assert i + k <= |z| ==> z[i..i + k][0] == prefix[i];
      } else {
        assert !OccursAt(y, Separator(), i - n);
        assert i + k <= |z| ==> z[i..i + k] == y[i - n..i - n + k];
      }
    }
  }

  lemma TailFree(m: Bytes, maxBytes: nat)
    requires Valid(m) && !Contains(m, Separator())
    ensures !Contains(Tail(m, maxBytes), Separator())
  {
    hide Valid, ToValid, Contains, Separator;
    ToValidIsValid(m);
    if |m| > maxBytes {
      var start := SkipForward(m, |m| - maxBytes);
      PartFree(m, start, |m|);
      assert m[start..|m|] == m[start..];
    }
  }

  lemma HeadAndTailFree(message: Bytes, maxBytes: int)
    requires maxBytes > 0 && !Contains(ToValid(message), Separator())
    ensures !Contains(HeadAndTail(message, maxBytes), Separator())
  {
    hide Valid, ToValid, Tail, Contains, Separator, SkipBack;
    var m := ToValid(message);
    ToValidIsValid(message);
    if |m| > maxBytes {
      if maxBytes <= |OMISSION| {
        TailFree(m, maxBytes);
      } else {
        var tailBytes := (maxBytes - |OMISSION|) / 2;
        var head := SkipBack(m, maxBytes - |OMISSION| - tailBytes);
        PartFree(m, 0, head);
        assert m[0..head] == m[..head];
        TailFree(m, tailBytes);
        MarkedFree(m[..head], Tail(m, tailBytes));
      }
    }
  }

  /** The reason names its attempt, fits in 256 bytes, and is kept by every later reconciliation as long as the
      provider's own text does not contain the separator: truncation never makes one up. */
  lemma AttemptReasonIsKept(hash: Bytes, detail: Bytes, errs: seq<Option<Bytes>>)
    requires |hash| == 32
    ensures
      var reason := BroadcastAttemptReason(hash, detail);
      && Valid(reason) && |reason| <= MAX_PRIMARY && AttemptPrefix(hash) <= reason
      && (!Contains(ToValid(detail), Separator()) ==> reason <= AppendAll(reason, errs))
  {
    hide Valid, ToValid, HeadAndTail, AppendAll, Contains, AttemptPrefix, Separator;
    var prefix := AttemptPrefix(hash);
    var detailBytes := MAX_PRIMARY - |prefix|;
    AsciiValid(prefix);
    HeadAndTailBounded(detail, detailBytes);
    ValidConcat(prefix, HeadAndTail(detail, detailBytes));
    var reason := BroadcastAttemptReason(hash, detail);
    if !Contains(ToValid(detail), Separator()) {
      HeadAndTailFree(detail, detailBytes);
      PrefixedFree(prefix, HeadAndTail(detail, detailBytes));
      ReasonSurvives(reason, errs);
    }
  }

  /** After its prefix the reason is the node's own text: all of it if it is short, else a beginning and an end. */
  lemma AttemptReasonQuotes(hash: Bytes, detail: Bytes, head: Bytes, tail: Bytes)
    requires |hash| == 32 && Valid(detail) && Valid(head) && Valid(tail) && head <= detail && EndsWith(detail, tail)
    requires |head| <= 84 && |tail| <= 83
    ensures |detail| <= 170 ==> BroadcastAttemptReason(hash, detail) == AttemptPrefix(hash) + detail
    ensures AttemptPrefix(hash) + head <= BroadcastAttemptReason(hash, detail)
    ensures EndsWith(BroadcastAttemptReason(hash, detail), tail)
  {
    hide Valid, HeadAndTail, EndsWith, AttemptPrefix;
    var prefix := AttemptPrefix(hash);
    HeadAndTailBounded(detail, 170);
    BothEndsSurvive(detail, head, tail, 170);
    EndsWithAfter(prefix, HeadAndTail(detail, 170), tail);
  }
}
