/** SessionInfo: the repairs made to the session-info YAML text before it is
    parsed. ApplyQuotingFixes quotes the values of five keys that the sim
    writes unquoted, FixMultiColons turns every colon after the first on a
    line into a dash, and FixYaml chains the two and cuts the text before
    the car setup section. */
module Session {
  import opened Wrappers

  const Quote: char := '\''

  /** `_keysToFix`. */
  const Keys: seq<string> := ["AbbrevName:", "TeamName:", "UserName:", "Initials:", "DriverSetupName:"]

  /** Environment.NewLine, which AppendLine writes; the sim runs on Windows. */
  const NewLine: string := "\r\n"

  // ---------------------------------------------------------------------------
  // ApplyQuotingFixes

  /** YamlKeys: how far the current line has matched the key, and whether the
      tracker has given up on the line, waits for the value to start, or is
      inside the value it has opened a quote for. */
  datatype Tracker = Tracker(key: string, count: int, ignore: bool, firstQuote: bool, secondQuote: bool)
  {
    /** Still comparing the line against the key. */
    predicate Matching() { !ignore && !firstQuote && !secondQuote }

    /** The states a tracker reaches: the key ends in a colon, at most one
        flag is set, and a tracker still matching is short of the end of its
        key, so `Key[Count]` is in range whenever it is read. */
    predicate Valid() {
      |key| > 0 && key[|key| - 1] == ':' && 0 <= count <= |key| &&
      (Matching() ==> count < |key|) &&
      (ignore ==> !firstQuote && !secondQuote) && !(firstQuote && secondQuote)
    }
  }

  predicate AllValid(ts: seq<Tracker>) {
    forall k :: 0 <= k < |ts| ==> ts[k].Valid()
  }

  /** `new YamlKeys { Key = key }`. */
  function NewTracker(key: string): Tracker {
    Tracker(key, 0, false, false, false)
  }

  /** The trackers ApplyQuotingFixes starts with, one per key. */
  function InitialTrackers(): (ts: seq<Tracker>)
    ensures |ts| == |Keys| && AllValid(ts)
  {
    seq(|Keys|, k requires 0 <= k < |Keys| => NewTracker(Keys[k]))
  }

  /** What one tracker does with one character: its new state, whether it
      writes a quote in front of the character, and how it changes the count
      of trackers ignoring the line. */
  datatype Reaction = Reaction(tracker: Tracker, quote: bool, delta: int)

  function React(t: Tracker, ch: char): (r: Reaction)
    requires t.Valid()
    ensures r.tracker.Valid() && r.tracker.key == t.key
  {
    if t.ignore then
      if ch == '\n' then Reaction(t.(count := 0, ignore := false), false, -1) else Reaction(t, false, 0)
    else if t.firstQuote then
      if ch == '\n' then Reaction(t.(count := 0, firstQuote := false), false, 0)
      else if ch != ' ' then Reaction(t.(firstQuote := false, secondQuote := true), true, 0)
      else Reaction(t, false, 0)
    else if t.secondQuote then
      if ch == '\n' then Reaction(t.(count := 0, secondQuote := false), true, 0)
      else if ch == Quote then Reaction(t, true, 0)
      else Reaction(t, false, 0)
    else if ch == t.key[t.count] then
      var t1 := t.(count := t.count + 1);
      if t1.count == |t1.key| then Reaction(t1.(firstQuote := true), false, 0) else Reaction(t1, false, 0)
    else if ch != ' ' then Reaction(t.(ignore := true), false, 1)
    else Reaction(t, false, 0)
  }

  /** The trackers, the count of those ignoring the line, and the text built
      so far. */
  datatype Scan = Scan(trackers: seq<Tracker>, ignoring: int, out: string)

  /** The tracker loop for one character, after trackers 0..j-1. */
  function ReactUpTo(s: Scan, ch: char, j: nat): (r: Scan)
    requires AllValid(s.trackers) && j <= |s.trackers|
    ensures |r.trackers| == |s.trackers| && AllValid(r.trackers)
    decreases j
  {
    if j == 0 then s
    else
      var p := ReactUpTo(s, ch, j - 1);
      var r := React(p.trackers[j - 1], ch);
      Scan(p.trackers[j - 1 := r.tracker], p.ignoring + r.delta, if r.quote then p.out + [Quote] else p.out)
  }

  /** What the reset loop does to one tracker at the end of a line ignored by
      all of them. */
  function Reset(t: Tracker): Tracker {
    t.(count := 0, ignore := false)
  }

  /** The reset loop, after trackers 0..j-1. */
  function ResetUpTo(ts: seq<Tracker>, j: nat): (r: seq<Tracker>)
    requires j <= |ts|
    ensures |r| == |ts|
    ensures AllValid(ts) ==> AllValid(r)
  {
    if j == 0 then ts
    else
      var p := ResetUpTo(ts, j - 1);
      p[j - 1 := Reset(p[j - 1])]
  }

  /** One character of the input: skipped by the trackers while every one of
      them ignores the line (a newline resets them all), otherwise shown to
      each tracker in turn; then copied to the output. */
  function Consume(s: Scan, ch: char): (r: Scan)
    requires AllValid(s.trackers)
    ensures |r.trackers| == |s.trackers| && AllValid(r.trackers)
  {
    var s1 :=
      if s.ignoring == |s.trackers| then
        if ch == '\n' then Scan(ResetUpTo(s.trackers, |s.trackers|), 0, s.out) else s
      else ReactUpTo(s, ch, |s.trackers|);
    s1.(out := s1.out + [ch])
  }

  /** The state after the characters of `input`. Every tracker stays valid,
      so the key is never read past its end. */
  function Scanned(input: string): (s: Scan)
    ensures |s.trackers| == |Keys| && AllValid(s.trackers)
  {
    if input == [] then Scan(InitialTrackers(), 0, [])
    else Consume(Scanned(input[..|input| - 1]), input[|input| - 1])
  }

  /** The closing quotes of values still open at the end of the input,
      after trackers 0..j-1. */
  function Pending(ts: seq<Tracker>, j: nat): string
    requires j <= |ts|
  {
    if j == 0 then [] else Pending(ts, j - 1) + (if ts[j - 1].secondQuote then [Quote] else [])
  }

  /** The text ApplyQuotingFixes returns. */
  function QuotingFixes(input: string): string {
    var s := Scanned(input);
    s.out + Pending(s.trackers, |s.trackers|)
  }

  /** The reset loop: every tracker's count and ignore flag cleared. */
  method ResetTrackers(keysToTrack: seq<Tracker>) returns (reset: seq<Tracker>)
    ensures reset == ResetUpTo(keysToTrack, |keysToTrack|)
  {
    reset := keysToTrack;
    for j := 0 to |reset|
      invariant |reset| == |keysToTrack| && reset == ResetUpTo(keysToTrack, j)
    {
      reset := reset[j := reset[j].(count := 0, ignore := false)];
    }
  }

  /** The tracker loop for one character: each tracker in turn updates its
      state and may write a quote in front of the character. */
  method ShowToTrackers(s: Scan, ch: char) returns (r: Scan)
    requires AllValid(s.trackers)
    ensures r == ReactUpTo(s, ch, |s.trackers|)
  {
    var keysToTrack, keyTrackersIgnoringUntilNextLine, builder := s.trackers, s.ignoring, s.out;
    for j := 0 to |keysToTrack|
      invariant |keysToTrack| == |s.trackers|
      invariant Scan(keysToTrack, keyTrackersIgnoringUntilNextLine, builder) == ReactUpTo(s, ch, j)
    {
      var t := keysToTrack[j];
      if t.ignore {
        if ch == '\n' {
          t := t.(count := 0, ignore := false);
          keyTrackersIgnoringUntilNextLine := keyTrackersIgnoringUntilNextLine - 1;
        }
      } else if t.firstQuote {
        if ch == '\n' {
          t := t.(count := 0, firstQuote := false);
        } else if ch != ' ' {
          builder := builder + [Quote];
          t := t.(firstQuote := false, secondQuote := true);
        }
      } else if t.secondQuote {
        if ch == '\n' {
          builder := builder + [Quote];
          t := t.(count := 0, secondQuote := false);
        } else if ch == Quote {
          builder := builder + [Quote];
        }
      } else {
        if ch == t.key[t.count] {
          t := t.(count := t.count + 1);
          if t.count == |t.key| {
            t := t.(firstQuote := true);
          }
        } else if ch != ' ' {
          t := t.(ignore := true);
          keyTrackersIgnoringUntilNextLine := keyTrackersIgnoringUntilNextLine + 1;
        }
      }
      keysToTrack := keysToTrack[j := t];
    }
    r := Scan(keysToTrack, keyTrackersIgnoringUntilNextLine, builder);
  }

  /** ApplyQuotingFixes(input). */
  method ApplyQuotingFixes(input: string) returns (output: string)
    ensures output == QuotingFixes(input)
  {
    var keysToTrack: seq<Tracker> := [];
    for i := 0 to |Keys|
      invariant keysToTrack == InitialTrackers()[..i]
    {
      keysToTrack := keysToTrack + [NewTracker(Keys[i])];
    }
    assert keysToTrack == InitialTrackers();
    var keyTrackersIgnoringUntilNextLine := 0;
    var builder := "";
    for n := 0 to |input|
      invariant Scan(keysToTrack, keyTrackersIgnoringUntilNextLine, builder) == Scanned(input[..n])
    {
      var ch := input[n];
      if keyTrackersIgnoringUntilNextLine == |keysToTrack| {
        if ch == '\n' {
          keyTrackersIgnoringUntilNextLine := 0;
          keysToTrack := ResetTrackers(keysToTrack);
        }
      } else {
        var r := ShowToTrackers(Scan(keysToTrack, keyTrackersIgnoringUntilNextLine, builder), ch);
        keysToTrack, keyTrackersIgnoringUntilNextLine, builder := r.trackers, r.ignoring, r.out;
      }
      builder := builder + [ch];
      assert input[..n + 1][..n] == input[..n];
    }
    assert input[..|input|] == input;
    ghost var last := Scan(keysToTrack, keyTrackersIgnoringUntilNextLine, builder);
    for j := 0 to |keysToTrack|
      invariant builder == last.out + Pending(last.trackers, j)
    {
      if keysToTrack[j].secondQuote {
        builder := builder + [Quote];
      }
    }
    output := builder;
  }

  // ---------------------------------------------------------------------------
  // Properties of ApplyQuotingFixes

  /** The number of trackers ignoring the rest of their line. */
  function IgnoringCount(ts: seq<Tracker>): (n: nat)
    ensures n <= |ts|
  {
    if ts == [] then 0 else IgnoringCount(ts[..|ts| - 1]) + (if ts[|ts| - 1].ignore then 1 else 0)
  }

  lemma {:induction false} IgnoringCountUpdate(ts: seq<Tracker>, k: int, t: Tracker)
    requires 0 <= k < |ts|
    ensures IgnoringCount(ts[k := t]) + (if ts[k].ignore then 1 else 0) ==
            IgnoringCount(ts) + (if t.ignore then 1 else 0)
  {
    var u := ts[k := t];
    if k < |ts| - 1 {
      assert u[..|u| - 1] == ts[..|ts| - 1][k := t];
      IgnoringCountUpdate(ts[..|ts| - 1], k, t);
    } else {
      assert u[..|u| - 1] == ts[..|ts| - 1];
    }
  }

  lemma {:induction false} IgnoringCountAll(ts: seq<Tracker>)
    ensures IgnoringCount(ts) == |ts| <==> forall k :: 0 <= k < |ts| ==> ts[k].ignore
  {
    if ts != [] {
      var front := ts[..|ts| - 1];
      IgnoringCountAll(front);
      assert forall k :: 0 <= k < |front| ==> front[k] == ts[k];
    }
  }

  /** A tracker's change to the counter is the change in whether it
      ignores its line. */
  lemma ReactCounts(t: Tracker, ch: char)
    requires t.Valid()
    ensures var r := React(t, ch);
            r.delta + (if t.ignore then 1 else 0) == (if r.tracker.ignore then 1 else 0)
  {
  }

  /** One tracker's update keeps the counter in step with the trackers. */
  lemma CountStep(p: Scan, k: int, t: Reaction, r: Scan)
    requires 0 <= k < |p.trackers|
    requires r.trackers == p.trackers[k := t.tracker] && r.ignoring == p.ignoring + t.delta
    requires t.delta + (if p.trackers[k].ignore then 1 else 0) == (if t.tracker.ignore then 1 else 0)
    ensures r.ignoring - IgnoringCount(r.trackers) == p.ignoring - IgnoringCount(p.trackers)
  {
    IgnoringCountUpdate(p.trackers, k, t.tracker);
  }

  /** The tracker loop moves the ignoring counter exactly as it moves the
      number of trackers ignoring their line. */
  lemma {:induction false} ReactUpToCounts(s: Scan, ch: char, j: nat)
    requires AllValid(s.trackers) && j <= |s.trackers|
    ensures var r := ReactUpTo(s, ch, j);
            r.ignoring - IgnoringCount(r.trackers) == s.ignoring - IgnoringCount(s.trackers)
  {
    if j > 0 {
      ReactUpToCounts(s, ch, j - 1);
      var p := ReactUpTo(s, ch, j - 1);
      ReactCounts(p.trackers[j - 1], ch);
      CountStep(p, j - 1, React(p.trackers[j - 1], ch), ReactUpTo(s, ch, j));
    }
  }

  /** Tracker k after the reset loop has passed j trackers. */
  lemma {:induction false} ResetUpToAt(ts: seq<Tracker>, j: nat, k: int)
    requires j <= |ts| && 0 <= k < |ts|
    ensures ResetUpTo(ts, j)[k] == if k < j then Reset(ts[k]) else ts[k]
  {
    if j > 0 {
      ResetUpToAt(ts, j - 1, k);
    }
  }

  /** When every tracker ignores its line, the tracker loop would do for one
      character just what the shortcut does: nothing, or reset every tracker
      at a newline. So the shortcut changes no result. */
  lemma {:induction false} ShortcutAgrees(s: Scan, ch: char, j: nat)
    requires AllValid(s.trackers) && j <= |s.trackers|
    requires forall k :: 0 <= k < |s.trackers| ==> s.trackers[k].ignore
    ensures ReactUpTo(s, ch, j) ==
              if ch == '\n' then Scan(ResetUpTo(s.trackers, j), s.ignoring - j, s.out) else s
  {
    if j > 0 {
      ShortcutAgrees(s, ch, j - 1);
      var t := s.trackers[j - 1];
      assert t.ignore;
      if ch == '\n' {
        ResetUpToAt(s.trackers, j - 1, j - 1);
        assert React(t, ch) == Reaction(Reset(t), false, -1);
      } else {
        assert React(t, ch) == Reaction(t, false, 0);
        assert s.trackers[j - 1 := t] == s.trackers;
      }
    }
  }

  /** keyTrackersIgnoringUntilNextLine is always the number of trackers
      ignoring their line, and the trackers are skipped exactly when they
      all do. */
  lemma {:induction false} ScannedCountsIgnoring(input: string)
    ensures var s := Scanned(input);
            s.ignoring == IgnoringCount(s.trackers) &&
            (s.ignoring == |s.trackers| <==> forall k :: 0 <= k < |s.trackers| ==> s.trackers[k].ignore)
  {
    if input == [] {
      NoneIgnoring(InitialTrackers());
      IgnoringCountAll(InitialTrackers());
    } else {
      var prefix := input[..|input| - 1];
      var ch := input[|input| - 1];
      ScannedCountsIgnoring(prefix);
      var s := Scanned(prefix);
      if s.ignoring == |s.trackers| {
        if ch == '\n' {
          var r := ResetUpTo(s.trackers, |s.trackers|);
          forall k | 0 <= k < |r| ensures !r[k].ignore {
            ResetUpToAt(s.trackers, |s.trackers|, k);
          }
          NoneIgnoring(r);
        }
      } else {
        ReactUpToCounts(s, ch, |s.trackers|);
      }
      IgnoringCountAll(Scanned(input).trackers);
    }
  }

  lemma {:induction false} NoneIgnoring(ts: seq<Tracker>)
    requires forall k :: 0 <= k < |ts| ==> !ts[k].ignore
    ensures IgnoringCount(ts) == 0
  {
    if ts != [] {
      NoneIgnoring(ts[..|ts| - 1]);
    }
  }

  /** `n` quote characters. */
  function Quotes(n: nat): (q: string)
    ensures |q| == n && forall i :: 0 <= i < n ==> q[i] == Quote
  {
    seq(n, _ => Quote)
  }

  lemma QuotesAdd(m: nat, n: nat)
    ensures Quotes(m) + Quotes(n) == Quotes(m + n)
  {
    assert forall i :: 0 <= i < m + n ==> (Quotes(m) + Quotes(n))[i] == Quote;
  }

  /** `a` is a subsequence of `b`, matched from the end of both. */
  predicate Subseq(a: string, b: string)
    decreases |b|
  {
    if a == [] then true
    else if b == [] then false
    else if a[|a| - 1] == b[|b| - 1] then Subseq(a[..|a| - 1], b[..|b| - 1])
    else Subseq(a, b[..|b| - 1])
  }

  lemma {:induction false} SubseqDropLast(a: string, b: string)
    requires a != [] && Subseq(a, b)
    ensures Subseq(a[..|a| - 1], b)
    decreases |b|
  {
    var fa := a[..|a| - 1];
    if fa != [] {
      var fb := b[..|b| - 1];
      if a[|a| - 1] != b[|b| - 1] {
        SubseqDropLast(a, fb);
      }
      assert Subseq(fa, fb);
      if fa[|fa| - 1] == b[|b| - 1] {
        SubseqDropLast(fa, fb);
      }
    }
  }

  lemma SubseqSnoc(a: string, b: string, x: char)
    requires Subseq(a, b)
    ensures Subseq(a, b + [x])
  {
    assert (b + [x])[..|b|] == b;
    if a != [] && a[|a| - 1] == x {
      SubseqDropLast(a, b);
    }
  }

  lemma {:induction false} SubseqAppend(a: string, b: string, q: string)
    requires Subseq(a, b)
    ensures Subseq(a, b + q)
    decreases |q|
  {
    if q != [] {
      var front := q[..|q| - 1];
      SubseqAppend(a, b, front);
      SubseqSnoc(a, b + front, q[|q| - 1]);
      assert b + front + [q[|q| - 1]] == b + q;
    } else {
      assert b + q == b;
    }
  }

  /** The text grown by some quotes and then a character still holds the
      input grown by that character. */
  lemma SubseqStep(a: string, b: string, q: string, ch: char)
    requires Subseq(a, b)
    ensures Subseq(a + [ch], b + q + [ch])
  {
    SubseqAppend(a, b, q);
    assert (a + [ch])[..|a|] == a;
    assert (b + q + [ch])[..|b + q|] == b + q;
  }

  /** The tracker loop writes only quotes, after what was there. */
  lemma {:induction false} ReactUpToWritesQuotes(s: Scan, ch: char, j: nat)
    requires AllValid(s.trackers) && j <= |s.trackers|
    ensures var r := ReactUpTo(s, ch, j);
            |r.out| >= |s.out| && r.out == s.out + Quotes(|r.out| - |s.out|)
  {
    if j > 0 {
      ReactUpToWritesQuotes(s, ch, j - 1);
      var p := ReactUpTo(s, ch, j - 1);
      QuotesAdd(|p.out| - |s.out|, 1);
    }
  }

  lemma {:induction false} PendingIsQuotes(ts: seq<Tracker>, j: nat)
    requires j <= |ts|
    ensures Pending(ts, j) == Quotes(|Pending(ts, j)|)
  {
    if j > 0 {
      PendingIsQuotes(ts, j - 1);
      QuotesAdd(|Pending(ts, j - 1)|, |Pending(ts, j)| - |Pending(ts, j - 1)|);
    }
  }

  /** One character: the text grows by some quotes and then the character. */
  lemma ConsumeWrites(s: Scan, ch: char)
    requires AllValid(s.trackers)
    ensures var r := Consume(s, ch);
            |r.out| >= |s.out| + 1 && r.out == s.out + Quotes(|r.out| - |s.out| - 1) + [ch]
  {
    if s.ignoring != |s.trackers| {
      ReactUpToWritesQuotes(s, ch, |s.trackers|);
    }
  }

  /** `out` is `input` with quote characters inserted: the input is a
      subsequence of it, and it holds the same characters plus as many
      quotes as it is longer. */
  predicate QuotesInserted(input: string, out: string) {
    |out| >= |input| && Subseq(input, out) &&
    multiset(out) == multiset(input) + multiset(Quotes(|out| - |input|))
  }

  lemma InsertsStep(input: string, out: string, q: string, next: string)
    requires input != [] && QuotesInserted(input[..|input| - 1], out) && q == Quotes(|q|)
    requires next == out + q + [input[|input| - 1]]
    ensures QuotesInserted(input, next)
  {
    var prefix, ch := input[..|input| - 1], input[|input| - 1];
    SubseqStep(prefix, out, q, ch);
    QuotesAdd(|out| - |prefix|, |q|);
    assert prefix + [ch] == input;
  }

  /** Both facts at once, one character at a time. */
  lemma {:induction false} ScannedInsertsQuotes(input: string)
    ensures QuotesInserted(input, Scanned(input).out)
  {
    if input != [] {
      var prefix := input[..|input| - 1];
      var ch := input[|input| - 1];
      ScannedInsertsQuotes(prefix);
      var s := Scanned(prefix);
      var r := Scanned(input);
      assert r == Consume(s, ch);
      ConsumeWrites(s, ch);
      InsertsStep(input, s.out, Quotes(|r.out| - |s.out| - 1), r.out);
    }
  }

  lemma AppendQuotes(input: string, out: string, q: string)
    requires QuotesInserted(input, out) && q == Quotes(|q|)
    ensures QuotesInserted(input, out + q)
  {
    SubseqAppend(input, out, q);
    QuotesAdd(|out| - |input|, |q|);
  }

  /** ApplyQuotingFixes only inserts quote characters. */
  lemma QuotingInsertsOnlyQuotes(input: string)
    ensures QuotesInserted(input, QuotingFixes(input))
  {
    ScannedInsertsQuotes(input);
    var s := Scanned(input);
    var pending := Pending(s.trackers, |s.trackers|);
    PendingIsQuotes(s.trackers, |s.trackers|);
    AppendQuotes(input, s.out, pending);
    assert QuotingFixes(input) == s.out + pending;
  }

  /** No tracker has a quote to open or close. */
  predicate Quiet(ts: seq<Tracker>) {
    forall k :: 0 <= k < |ts| ==> !ts[k].firstQuote && !ts[k].secondQuote
  }

  /** A key is complete only when its final colon is read. */
  lemma {:induction false} ReactUpToQuiet(s: Scan, ch: char, j: nat)
    requires AllValid(s.trackers) && j <= |s.trackers| && Quiet(s.trackers) && ch != ':'
    ensures Quiet(ReactUpTo(s, ch, j).trackers) && ReactUpTo(s, ch, j).out == s.out
  {
    if j > 0 {
      ReactUpToQuiet(s, ch, j - 1);
    }
  }

  lemma {:induction false} ScannedQuiet(input: string)
    requires ':' !in input
    ensures Quiet(Scanned(input).trackers) && Scanned(input).out == input
  {
    if input != [] {
      var prefix := input[..|input| - 1];
      var ch := input[|input| - 1];
      assert ch in input;
      assert forall c :: c in prefix ==> c in input;
      ScannedQuiet(prefix);
      var s := Scanned(prefix);
      if s.ignoring == |s.trackers| {
        if ch == '\n' {
          var r := ResetUpTo(s.trackers, |s.trackers|);
          forall k | 0 <= k < |r| ensures !r[k].firstQuote && !r[k].secondQuote {
            ResetUpToAt(s.trackers, |s.trackers|, k);
          }
        }
      } else {
        ReactUpToQuiet(s, ch, |s.trackers|);
      }
      assert prefix + [ch] == input;
    }
  }

  lemma {:induction false} PendingQuiet(ts: seq<Tracker>, j: nat)
    requires j <= |ts| && Quiet(ts)
    ensures Pending(ts, j) == []
  {
    if j > 0 {
      PendingQuiet(ts, j - 1);
    }
  }

  /** Without a colon no key completes, so the input comes back unchanged. */
  lemma NoColonUnchanged(input: string)
    requires ':' !in input
    ensures QuotingFixes(input) == input
  {
    ScannedQuiet(input);
    var s := Scanned(input);
    PendingQuiet(s.trackers, |s.trackers|);
  }

  // ---------------------------------------------------------------------------
  // FixMultiColons

  /** The characters StringReader.ReadLine ends a line at. */
  predicate IsBreak(c: char) { c == '\r' || c == '\n' }

  /** The length of the first line of `s`: up to its first break. */
  function LineLength(s: string): (n: nat)
    ensures n <= |s| && (forall i :: 0 <= i < n ==> !IsBreak(s[i])) && (n < |s| ==> IsBreak(s[n]))
  {
    if s == [] || IsBreak(s[0]) then 0 else 1 + LineLength(s[1..])
  }

  /** The length of the break at `n`: "\r\n" counts as one break. */
  function BreakLength(s: string, n: nat): nat
    requires n <= |s|
  {
    if n == |s| then 0 else if s[n] == '\r' && n + 1 < |s| && s[n + 1] == '\n' then 2 else 1
  }

  /** The lines successive ReadLine calls return, until it returns null. */
  function Lines(s: string): seq<string>
    decreases |s|
  {
    if s == [] then []
    else
      var n := LineLength(s);
      [s[..n]] + Lines(s[n + BreakLength(s, n)..])
  }

  /** `line.Count(c => c == ':')`, for any character. */
  function CountOf(c: char, s: string): nat {
    if s == [] then 0 else CountOf(c, s[..|s| - 1]) + (if s[|s| - 1] == c then 1 else 0)
  }

  /** The line after its colons past the first are turned into dashes. */
  function Dashed(line: string): string {
    seq(|line|, i requires 0 <= i < |line| => if line[i] == ':' && ':' in line[..i] then '-' else line[i])
  }

  /** The line FixMultiColons writes for `line`: rewritten when it holds
      more than one colon and no quote, copied otherwise. */
  function FixedLine(line: string): string {
    if CountOf(':', line) > 1 && Quote !in line then Dashed(line) else line
  }

  function FixedLines(lines: seq<string>): (r: seq<string>)
    ensures |r| == |lines|
  {
    if lines == [] then [] else [FixedLine(lines[0])] + FixedLines(lines[1..])
  }

  /** What AppendLine builds: each line followed by a newline. */
  function JoinLines(lines: seq<string>): string {
    if lines == [] then [] else lines[0] + NewLine + JoinLines(lines[1..])
  }

  /** The text FixMultiColons returns. */
  function MultiColonsFixed(yaml: string): string {
    JoinLines(FixedLines(Lines(yaml)))
  }

  /** The loop over one line's characters, on a char array. */
  method FixLine(line: string) returns (fixed: string)
    ensures fixed == FixedLine(line)
  {
    fixed := line;
    if CountOf(':', line) > 1 && Quote !in line {
      var chars := new char[|line|](i requires 0 <= i < |line| => line[i]);
      var foundFirst := false;
      for i := 0 to chars.Length
        invariant foundFirst <==> ':' in line[..i]
        invariant forall k :: 0 <= k < i ==> chars[k] == Dashed(line)[k]
        invariant forall k :: i <= k < chars.Length ==> chars[k] == line[k]
      {
        assert line[..i + 1] == line[..i] + [line[i]];
        var c := chars[i];
        if c != ':' {
          continue;
        }
        if !foundFirst {
          foundFirst := true;
          continue;
        }
        chars[i] := '-';
      }
      fixed := chars[..];
    }
  }

  /** The first line comes first in the rewritten text. */
  lemma MultiColonsStep(rest: string)
    requires rest != []
    ensures var n := LineLength(rest);
            JoinLines(FixedLines(Lines(rest))) ==
              FixedLine(rest[..n]) + NewLine + JoinLines(FixedLines(Lines(rest[n + BreakLength(rest, n)..])))
  {
    var n := LineLength(rest);
    var tail := Lines(rest[n + BreakLength(rest, n)..]);
    assert Lines(rest) == [rest[..n]] + tail;
    assert ([rest[..n]] + tail)[1..] == tail;
    assert FixedLines(Lines(rest)) == [FixedLine(rest[..n])] + FixedLines(tail);
    assert ([FixedLine(rest[..n])] + FixedLines(tail))[1..] == FixedLines(tail);
  }

  /** Appending a line and its break to the builder. */
  lemma BuilderStep(builder: string, line: string, tail: string)
    ensures builder + (line + NewLine + tail) == (builder + line + NewLine) + tail
  {
  }

  /** FixMultiColons(yaml). */
  method FixMultiColons(yaml: string) returns (fixed: string)
    ensures fixed == MultiColonsFixed(yaml)
  {
    var builder := "";
    var rest := yaml;
    while rest != []
      invariant builder + JoinLines(FixedLines(Lines(rest))) == MultiColonsFixed(yaml)
      decreases |rest|
    {
      var n := LineLength(rest);
      var line := FixLine(rest[..n]);
      MultiColonsStep(rest);
      var next := rest[n + BreakLength(rest, n)..];
      BuilderStep(builder, line, JoinLines(FixedLines(Lines(next))));
      builder := builder + line + NewLine;
      rest := next;
    }
    fixed := builder;
  }

  // ---------------------------------------------------------------------------
  // Properties of FixMultiColons

  /** A line with at most one colon, or with a quote, is copied; otherwise
      only its colons after the first change, each into a dash, so the first
      colon is the only one left. The length never changes. */
  lemma FixedLineSpec(line: string)
    ensures |FixedLine(line)| == |line|
    ensures CountOf(':', line) <= 1 || Quote in line ==> FixedLine(line) == line
    ensures CountOf(':', line) > 1 && Quote !in line ==>
              forall i :: 0 <= i < |line| ==>
                (FixedLine(line)[i] == ':' <==> line[i] == ':' && ':' !in line[..i]) &&
                (FixedLine(line)[i] == line[i] || (line[i] == ':' && FixedLine(line)[i] == '-'))
  {
  }

  /** Lines hold no break characters. */
  predicate Unbroken(line: string) {
    forall i :: 0 <= i < |line| ==> !IsBreak(line[i])
  }

  lemma {:induction false} LinesUnbroken(s: string)
    ensures forall k :: 0 <= k < |Lines(s)| ==> Unbroken(Lines(s)[k])
    decreases |s|
  {
    if s != [] {
      var n := LineLength(s);
      var tail := s[n + BreakLength(s, n)..];
      LinesUnbroken(tail);
      assert Lines(s) == [s[..n]] + Lines(tail);
    }
  }

  lemma {:induction false} LineLengthOfJoin(line: string, rest: string)
    requires Unbroken(line) && rest != [] && IsBreak(rest[0])
    ensures LineLength(line + rest) == |line|
  {
    if line != [] {
      assert (line + rest)[1..] == line[1..] + rest;
      LineLengthOfJoin(line[1..], rest);
    }
  }

  /** Reading back the lines AppendLine wrote gives the same lines. */
  lemma {:induction false} LinesOfJoin(lines: seq<string>)
    requires forall k :: 0 <= k < |lines| ==> Unbroken(lines[k])
    ensures Lines(JoinLines(lines)) == lines
  {
    if lines != [] {
      var rest := JoinLines(lines[1..]);
      LinesStep(JoinLines(lines), lines[0], rest);
      LinesOfJoin(lines[1..]);
      assert lines == [lines[0]] + lines[1..];
    }
  }

  /** A line, the newline AppendLine writes, and the rest: ReadLine returns
      the line and goes on with the rest. */
  lemma LinesStep(text: string, line: string, rest: string)
    requires Unbroken(line) && text == line + NewLine + rest
    ensures Lines(text) == [line] + Lines(rest)
  {
    assert text == line + (NewLine + rest);
    LineLengthOfJoin(line, NewLine + rest);
    var n := |line|;
    assert text[n] == '\r' && text[n + 1] == '\n';
    assert text[..n] == line;
    assert text[n + 2..] == rest;
  }

  lemma {:induction false} FixedLinesAt(lines: seq<string>, k: int)
    requires 0 <= k < |lines|
    ensures FixedLines(lines)[k] == FixedLine(lines[k])
  {
    if k > 0 {
      FixedLinesAt(lines[1..], k - 1);
    }
  }

  /** FixMultiColons keeps the lines: the same number of them, each the
      rewritten input line and so of the same length. */
  lemma MultiColonsKeepsLines(yaml: string)
    ensures Lines(MultiColonsFixed(yaml)) == FixedLines(Lines(yaml))
    ensures |Lines(MultiColonsFixed(yaml))| == |Lines(yaml)|
    ensures forall k :: 0 <= k < |Lines(yaml)| ==>
              Lines(MultiColonsFixed(yaml))[k] == FixedLine(Lines(yaml)[k]) &&
              |Lines(MultiColonsFixed(yaml))[k]| == |Lines(yaml)[k]|
  {
    var lines := Lines(yaml);
    LinesUnbroken(yaml);
    forall k | 0 <= k < |lines|
      ensures FixedLines(lines)[k] == FixedLine(lines[k]) && Unbroken(FixedLines(lines)[k])
    {
      FixedLinesAt(lines, k);
      FixedLineSpec(lines[k]);
    }
    LinesOfJoin(FixedLines(lines));
    forall k | 0 <= k < |lines| ensures |FixedLine(lines[k])| == |lines[k]| {
      FixedLineSpec(lines[k]);
    }
  }

  // ---------------------------------------------------------------------------
  // FixYaml

  /** The heading the car setup section starts with. */
  const SetupHeading: string := "CarSetup:"

  predicate OccursAt(s: string, pattern: string, i: int) {
    0 <= i && i + |pattern| <= |s| && s[i..i + |pattern|] == pattern
  }

  /** `s.IndexOf(pattern, StringComparison.Ordinal)` searched from `from`:
      the first position of an exact match, or -1. */
  function IndexFrom(s: string, pattern: string, from: nat): (r: int)
    ensures r == -1 || (from <= r && OccursAt(s, pattern, r))
    ensures forall i :: from <= i && (r == -1 || i < r) ==> !OccursAt(s, pattern, i)
    decreases |s| - from
  {
    if from + |pattern| > |s| then -1
    else if s[from..from + |pattern|] == pattern then from
    else IndexFrom(s, pattern, from + 1)
  }

  /** The text with the setup section cut off, when it starts past the
      first character. */
  function CutSetup(yaml: string): string {
    var at := IndexFrom(yaml, SetupHeading, 0);
    if at > 0 then yaml[..at] else yaml
  }

  /** What FixYaml leaves in `_yaml` for a non-empty input. */
  function Repaired(yaml: string): string {
    CutSetup(MultiColonsFixed(QuotingFixes(yaml)))
  }

  /** The cut keeps a prefix of the text. A text that begins with the
      heading is kept whole (an index of 0 is not cut at); otherwise the
      heading occurs nowhere in what is kept, and a text without it is
      kept whole. */
  lemma CutSetupSpec(yaml: string)
    ensures var c := CutSetup(yaml);
            |c| <= |yaml| && c == yaml[..|c|] &&
            (OccursAt(yaml, SetupHeading, 0) ==> c == yaml) &&
            (!OccursAt(yaml, SetupHeading, 0) ==> forall i :: !OccursAt(c, SetupHeading, i))
    ensures (forall i :: !OccursAt(yaml, SetupHeading, i)) ==> CutSetup(yaml) == yaml
  {
    var at := IndexFrom(yaml, SetupHeading, 0);
    var c := CutSetup(yaml);
    if !OccursAt(yaml, SetupHeading, 0) {
      forall i ensures !OccursAt(c, SetupHeading, i) {
        if 0 <= i && i + |SetupHeading| <= |c| {
          assert c[i..i + |SetupHeading|] == yaml[i..i + |SetupHeading|];
          assert !OccursAt(yaml, SetupHeading, i);
        }
      }
    }
  }

  class SessionInfo {
    /** `_yaml`: null until FixYaml stores a repaired text. */
    var yaml: Option<string>

    /** `new SessionInfo(yaml, updateTime)`: the text is repaired once. */
    constructor (yaml: Option<string>)
      ensures this.yaml == if yaml.None? || yaml.value == [] then None else Some(Repaired(yaml.value))
    {
      this.yaml := None;
      new;
      FixYaml(yaml);
    }

    /** FixYaml(yaml): nothing for a null or empty text; otherwise the
        quoting fixes, then the colon fix, then the setup cut. */
    method FixYaml(input: Option<string>)
      modifies this`yaml
      ensures yaml == if input.None? || input.value == [] then old(yaml) else Some(Repaired(input.value))
    {
      if input.None? || input.value == [] {
        return;
      }
      var quoted := ApplyQuotingFixes(input.value);
      var fixed := FixMultiColons(quoted);
      yaml := Some(fixed);
      var indexOfSetup := IndexFrom(fixed, SetupHeading, 0);
      if indexOfSetup > 0 {
        yaml := Some(fixed[..indexOfSetup]);
      }
    }
  }
}
