/** ApplyQuotingFixes line by line. Every tracker follows the text on its
    own, and the text that comes out holds, in front of each character, the
    quotes that all trackers write at that character. On a line that sets
    one of the keys, the key's tracker quotes the value and the other
    trackers give up on the line and write nothing; so the value comes out
    between quotes with its own quotes doubled. A line just after an empty
    line is passed over by every tracker. */
module QuotingLines {
  import opened Session

  /** `n` spaces. */
  function Spaces(n: nat): (s: string)
    ensures |s| == n && forall i :: 0 <= i < n ==> s[i] == ' '
  {
    seq(n, _ => ' ')
  }

  /** A value with each of its quotes doubled, as YAML escapes a quote
      inside a single-quoted scalar. */
  function Escaped(value: string): string {
    if value == [] then []
    else
      var ch := value[|value| - 1];
      Escaped(value[..|value| - 1]) + (if ch == Quote then [Quote, Quote] else [ch])
  }

  // ---------------------------------------------------------------------------
  // One tracker on its own

  /** A tracker's state after it has been shown `text`. */
  function Track(t: Tracker, text: string): (r: Tracker)
    requires t.Valid()
    ensures r.Valid() && r.key == t.key
    decreases |text|
  {
    if text == [] then t else React(Track(t, text[..|text| - 1]), text[|text| - 1]).tracker
  }

  /** `text` with the quotes that one tracker writes in front of its
      characters. */
  function Written(t: Tracker, text: string): string
    requires t.Valid()
    decreases |text|
  {
    if text == [] then []
    else
      var front, ch := text[..|text| - 1], text[|text| - 1];
      Written(t, front) + (if React(Track(t, front), ch).quote then [Quote] else []) + [ch]
  }

  /** Showing a tracker two texts in a row. */
  lemma {:induction false} TrackAppend(t: Tracker, x: string, y: string)
    requires t.Valid()
    ensures Track(t, x + y) == Track(Track(t, x), y)
    ensures Written(t, x + y) == Written(t, x) + Written(Track(t, x), y)
    decreases |y|
  {
    if y == [] {
      assert x + y == x;
    } else {
      var front, ch := y[..|y| - 1], y[|y| - 1];
      TrackAppend(t, x, front);
      assert (x + y)[..|x + y| - 1] == x + front;
      assert (x + y)[|x + y| - 1] == ch;
      AppendStep(Written(t, x), Written(Track(t, x), front), Written(t, x + front),
                 React(Track(t, x + front), ch).quote, ch, Written(t, x + y), Written(Track(t, x), y));
    }
  }

  /** The last character of the second text, written after both. */
  lemma AppendStep(w: string, v: string, wv: string, quote: bool, ch: char, whole: string, second: string)
    requires wv == w + v
    requires whole == wv + (if quote then [Quote] else []) + [ch]
    requires second == v + (if quote then [Quote] else []) + [ch]
    ensures whole == w + second
  {
  }

  /** One character on its own. */
  lemma TrackOne(t: Tracker, ch: char)
    requires t.Valid()
    ensures Track(t, [ch]) == React(t, ch).tracker
    ensures Written(t, [ch]) == (if React(t, ch).quote then [Quote, ch] else [ch])
  {
    assert [ch][..0] == [];
  }

  /** The tracker writes at least the text it is shown. */
  lemma {:induction false} WrittenLength(t: Tracker, text: string)
    requires t.Valid()
    ensures |Written(t, text)| >= |text|
    decreases |text|
  {
    if text != [] {
      WrittenLength(t, text[..|text| - 1]);
    }
  }

  /** A tracker that writes no quote over a text writes none over its
      front part, nor at its last character. */
  lemma SilentStep(t: Tracker, text: string)
    requires t.Valid() && text != [] && Written(t, text) == text
    ensures var front := text[..|text| - 1];
            Written(t, front) == front && !React(Track(t, front), text[|text| - 1]).quote
  {
    var front := text[..|text| - 1];
    WrittenLength(t, front);
    var w := Written(t, front);
    assert w == text[..|w|];
  }

  /** Spaces leave a tracker alone unless it is matching a key at a space. */
  lemma {:induction false} SpacesKeep(t: Tracker, n: nat)
    requires t.Valid() && !(t.Matching() && t.key[t.count] == ' ')
    ensures Track(t, Spaces(n)) == t && Written(t, Spaces(n)) == Spaces(n)
  {
    if n > 0 {
      assert Spaces(n)[..n - 1] == Spaces(n - 1);
      SpacesKeep(t, n - 1);
      assert Spaces(n - 1) + [' '] == Spaces(n);
    }
  }

  /** A tracker that has given up on its line stays so until the newline,
      and writes nothing. */
  lemma {:induction false} IgnoredRest(t: Tracker, text: string)
    requires t.Valid() && t.ignore && '\n' !in text
    ensures Track(t, text) == t && Written(t, text) == text
    decreases |text|
  {
    if text != [] {
      var front, ch := text[..|text| - 1], text[|text| - 1];
      assert forall c :: c in front ==> c in text;
      IgnoredRest(t, front);
      assert ch in text;
      assert front + [ch] == text;
      KeptStep(t, front, ch);
    }
  }

  /** A character a tracker lets pass unchanged, after a text it let pass. */
  lemma KeptStep(t: Tracker, front: string, ch: char)
    requires t.Valid() && Track(t, front) == t && Written(t, front) == front
    requires React(t, ch) == Reaction(t, false, 0)
    ensures Track(t, front + [ch]) == t && Written(t, front + [ch]) == front + [ch]
  {
    assert (front + [ch])[..|front|] == front;
  }

  /** Inside a quoted value, up to the newline, the tracker doubles each
      quote. */
  lemma {:induction false} ValueTrack(t: Tracker, text: string)
    requires t.Valid() && t.secondQuote && '\n' !in text
    ensures Track(t, text) == t && Written(t, text) == Escaped(text)
    decreases |text|
  {
    if text != [] {
      var front, ch := text[..|text| - 1], text[|text| - 1];
      assert forall c :: c in front ==> c in text;
      ValueTrack(t, front);
      assert ch in text;
      if ch == Quote {
        assert Escaped(front) + [Quote] + [ch] == Escaped(front) + [Quote, Quote];
      }
    }
  }

  /** A fresh tracker shown the first `i` characters of its own key has
      matched them; after the whole key it waits for the value. */
  lemma {:induction false} KeyTrack(key: string, i: nat)
    requires NewTracker(key).Valid() && i <= |key|
    ensures Track(NewTracker(key), key[..i]) ==
              if i < |key| then Tracker(key, i, false, false, false) else Tracker(key, |key|, false, true, false)
    ensures Written(NewTracker(key), key[..i]) == key[..i]
  {
    if i > 0 {
      assert key[..i][..i - 1] == key[..i - 1];
      KeyTrack(key, i - 1);
      assert key[..i - 1] + [key[i - 1]] == key[..i];
    } else {
      assert key[..i] == [];
    }
  }

  /** Read from the start, `word` and `key` differ, before either ends, at
      a character of `word` that is not a space: the tracker for `key`
      gives up on a line that starts with `word`. */
  predicate PartsFrom(word: string, key: string)
    decreases |word|
  {
    word != [] && key != [] &&
    if word[0] == key[0] then PartsFrom(word[1..], key[1..]) else word[0] != ' '
  }

  /** A tracker that has matched `count` characters of its key gives up on
      a word that parts from the rest of its key, and writes nothing. */
  lemma {:induction false} GivesUpFrom(key: string, count: nat, word: string)
    requires Tracker(key, count, false, false, false).Valid()
    requires PartsFrom(word, key[count..]) && '\n' !in word
    ensures Track(Tracker(key, count, false, false, false), word).ignore
    ensures Written(Tracker(key, count, false, false, false), word) == word
    decreases |word|
  {
    var t := Tracker(key, count, false, false, false);
    var rest := word[1..];
    assert word == [word[0]] + rest;
    assert forall c :: c in rest ==> c in word;
    TrackOne(t, word[0]);
    var t1 := React(t, word[0]).tracker;
    if word[0] == key[count] {
      assert key[count..][1..] == key[count + 1..];
      GivesUpFrom(key, count + 1, rest);
    } else {
      assert word[0] in word;
      IgnoredRest(t1, rest);
    }
    Chain(t, [word[0]], rest, t1, [word[0]], Track(t1, rest), rest);
  }

  lemma Associates(x: string, y: string, z: string)
    ensures x + (y + z) == (x + y) + z
  {
  }

  /** Two texts in a row, each with a known effect on the tracker. */
  lemma Chain(t: Tracker, x: string, y: string, tx: Tracker, wx: string, ty: Tracker, wy: string)
    requires t.Valid() && Track(t, x) == tx && Written(t, x) == wx
    requires Track(tx, y) == ty && Written(tx, y) == wy
    ensures Track(t, x + y) == ty && Written(t, x + y) == wx + wy
  {
    TrackAppend(t, x, y);
  }

  // ---------------------------------------------------------------------------
  // One tracker over one line

  /** The facts about the five keys that the line lemmas use: each is a
      valid key that starts with neither a space nor a newline, and no two
      start with the same letter. */
  lemma KeyLetters()
    ensures forall k :: 0 <= k < |Keys| ==> NewTracker(Keys[k]).Valid() && Keys[k][0] != ' ' && Keys[k][0] != '\n'
    ensures forall k, l :: 0 <= k < |Keys| && 0 <= l < |Keys| && k != l ==> Keys[k][0] != Keys[l][0]
  {
    assert Keys[0][0] == 'A' && Keys[1][0] == 'T' && Keys[2][0] == 'U' && Keys[3][0] == 'I' && Keys[4][0] == 'D';
  }

  /** A line whose first word parts from the key: the tracker writes the
      line unchanged and is fresh again after the newline. */
  lemma LineGivenUp(key: string, a: nat, word: string)
    requires NewTracker(key).Valid() && key[0] != ' '
    requires PartsFrom(word, key) && '\n' !in word
    ensures var line := Spaces(a) + word + "\n";
            Track(NewTracker(key), line) == NewTracker(key) && Written(NewTracker(key), line) == line
  {
    var t := NewTracker(key);
    SpacesKeep(t, a);
    assert key[0..] == key;
    GivesUpFrom(key, 0, word);
    var gaveUp := Track(t, word);
    Chain(t, Spaces(a), word, t, Spaces(a), gaveUp, word);
    TrackOne(gaveUp, '\n');
    Chain(t, Spaces(a) + word, "\n", gaveUp, Spaces(a) + word, t, "\n");
  }

  /** The key's own tracker, waiting after the key, opens a quote before
      the first character that is neither a space nor a line break. */
  lemma FirstOpens(key: string, c: char)
    requires NewTracker(key).Valid() && c != ' ' && c != '\n'
    ensures var waiting := Tracker(key, |key|, false, true, false);
            Track(waiting, [c]) == Tracker(key, |key|, false, false, true) &&
            Written(waiting, [c]) == [Quote, c]
  {
    TrackOne(Tracker(key, |key|, false, true, false), c);
  }

  /** The key's own tracker at the start of its value: a quote opens before
      the first character, and each later quote is doubled. */
  lemma ValueOpens(key: string, value: string)
    requires NewTracker(key).Valid() && value != [] && value[0] != ' ' && '\n' !in value
    ensures var waiting := Tracker(key, |key|, false, true, false);
            Track(waiting, value) == Tracker(key, |key|, false, false, true) &&
            Written(waiting, value) == [Quote, value[0]] + Escaped(value[1..])
  {
    assert value[0] in value;
    var rest := value[1..];
    assert forall c :: c in rest ==> c in value;
    assert [value[0]] + rest == value;
    OpensThenEscapes(key, value[0], rest, value);
  }

  /** FirstOpens followed by ValueTrack. */
  lemma OpensThenEscapes(key: string, c: char, rest: string, value: string)
    requires NewTracker(key).Valid() && c != ' ' && c != '\n' && '\n' !in rest && value == [c] + rest
    ensures var waiting := Tracker(key, |key|, false, true, false);
            Track(waiting, value) == Tracker(key, |key|, false, false, true) &&
            Written(waiting, value) == [Quote, c] + Escaped(rest)
  {
    var waiting := Tracker(key, |key|, false, true, false);
    var inValue := Tracker(key, |key|, false, false, true);
    FirstOpens(key, c);
    ValueTrack(inValue, rest);
    Chain(waiting, [c], rest, inValue, [Quote, c], inValue, Escaped(rest));
  }

  /** The key's own tracker over `key: value`: the key and the spaces after
      it are left as they are, a quote opens before the value, and each
      quote inside the value is doubled. The quote stays open. */
  lemma KeyValueTrack(key: string, a: nat, b: nat, value: string)
    requires NewTracker(key).Valid() && key[0] != ' '
    requires value != [] && value[0] != ' ' && '\n' !in value
    ensures Track(NewTracker(key), Spaces(a) + key + Spaces(b) + value) == Tracker(key, |key|, false, false, true)
    ensures Written(NewTracker(key), Spaces(a) + key + Spaces(b) + value) ==
              Spaces(a) + key + Spaces(b) + [Quote, value[0]] + Escaped(value[1..])
  {
    var t := NewTracker(key);
    var waiting := Tracker(key, |key|, false, true, false);
    var inValue := Tracker(key, |key|, false, false, true);
    SpacesKeep(t, a);
    KeyTrack(key, |key|);
    assert key[..|key|] == key;
    var lead := Spaces(a) + key;
    Chain(t, Spaces(a), key, t, Spaces(a), waiting, key);
    SpacesKeep(waiting, b);
    Chain(t, lead, Spaces(b), waiting, lead, waiting, Spaces(b));
    ValueOpens(key, value);
    var quoted := [Quote, value[0]] + Escaped(value[1..]);
    Chain(t, lead + Spaces(b), value, waiting, lead + Spaces(b), inValue, quoted);
    Associates(lead + Spaces(b), [Quote, value[0]], Escaped(value[1..]));
  }

  /** The whole key line: the value comes out quoted, and after the newline
      the tracker is fresh. */
  lemma KeyLineTrack(key: string, a: nat, b: nat, value: string)
    requires NewTracker(key).Valid() && key[0] != ' '
    requires value != [] && value[0] != ' ' && '\n' !in value
    ensures var line := Spaces(a) + key + Spaces(b) + value + "\n";
            Track(NewTracker(key), line) == NewTracker(key) &&
            Written(NewTracker(key), line) ==
              Spaces(a) + key + Spaces(b) + [Quote, value[0]] + Escaped(value[1..]) + [Quote, '\n']
  {
    var t := NewTracker(key);
    var inValue := Tracker(key, |key|, false, false, true);
    KeyValueTrack(key, a, b, value);
    TrackOne(inValue, '\n');
    var body := Spaces(a) + key + Spaces(b) + value;
    var quoted := Spaces(a) + key + Spaces(b) + [Quote, value[0]] + Escaped(value[1..]);
    Chain(t, body, "\n", inValue, quoted, t, [Quote, '\n']);
  }

  /** A key with nothing after it on its line: nothing is quoted, and after
      the newline the tracker is fresh. */
  lemma EmptyValueTrack(key: string, a: nat, b: nat)
    requires NewTracker(key).Valid() && key[0] != ' '
    ensures var line := Spaces(a) + key + Spaces(b) + "\n";
            Track(NewTracker(key), line) == NewTracker(key) && Written(NewTracker(key), line) == line
  {
    var t := NewTracker(key);
    var waiting := Tracker(key, |key|, false, true, false);
    SpacesKeep(t, a);
    KeyTrack(key, |key|);
    assert key[..|key|] == key;
    var lead := Spaces(a) + key;
    Chain(t, Spaces(a), key, t, Spaces(a), waiting, key);
    SpacesKeep(waiting, b);
    Chain(t, lead, Spaces(b), waiting, lead, waiting, Spaces(b));
    TrackOne(waiting, '\n');
    Chain(t, lead + Spaces(b), "\n", waiting, lead + Spaces(b), t, "\n");
  }

  /** An empty line is not a key, so the newline ends it with the tracker
      giving up; it then ignores the whole of the next line, whatever that
      holds, and is fresh after it. */
  lemma BlankLineTrack(key: string, a: nat, next: string)
    requires NewTracker(key).Valid() && key[0] != ' ' && key[0] != '\n' && '\n' !in next
    ensures var lines := Spaces(a) + "\n" + next + "\n";
            Track(NewTracker(key), lines) == NewTracker(key) && Written(NewTracker(key), lines) == lines
  {
    var t := NewTracker(key);
    var gaveUp := t.(ignore := true);
    SpacesKeep(t, a);
    TrackOne(t, '\n');
    Chain(t, Spaces(a), "\n", t, Spaces(a), gaveUp, "\n");
    IgnoredRest(gaveUp, next);
    Chain(t, Spaces(a) + "\n", next, gaveUp, Spaces(a) + "\n", gaveUp, next);
    TrackOne(gaveUp, '\n');
    Chain(t, Spaces(a) + "\n" + next, "\n", gaveUp, Spaces(a) + "\n" + next, t, "\n");
  }

  // ---------------------------------------------------------------------------
  // All trackers together

  /** The scan from state `s` through `text`. */
  function Run(s: Scan, text: string): (r: Scan)
    requires AllValid(s.trackers)
    ensures |r.trackers| == |s.trackers| && AllValid(r.trackers)
    decreases |text|
  {
    if text == [] then s else Consume(Run(s, text[..|text| - 1]), text[|text| - 1])
  }

  /** Scanning a text in two parts. */
  lemma {:induction false} ScannedThen(p: string, text: string)
    ensures Scanned(p + text) == Run(Scanned(p), text)
    decreases |text|
  {
    if text == [] {
      assert p + text == p;
    } else {
      ScannedThen(p, text[..|text| - 1]);
      assert (p + text)[..|p + text| - 1] == p + text[..|text| - 1];
      assert (p + text)[|p + text| - 1] == text[|text| - 1];
    }
  }

  /** How many of trackers 0..j-1 write a quote in front of `ch`. */
  function QuoteCount(ts: seq<Tracker>, ch: char, j: nat): nat
    requires AllValid(ts) && j <= |ts|
  {
    if j == 0 then 0 else QuoteCount(ts, ch, j - 1) + (if React(ts[j - 1], ch).quote then 1 else 0)
  }

  /** Every tracker after `ch`. */
  function Reacted(ts: seq<Tracker>, ch: char): (r: seq<Tracker>)
    requires AllValid(ts)
    ensures |r| == |ts| && AllValid(r)
  {
    seq(|ts|, k requires 0 <= k < |ts| => React(ts[k], ch).tracker)
  }

  /** Every tracker after `text`, each on its own. */
  function TrackAll(ts: seq<Tracker>, text: string): (r: seq<Tracker>)
    requires AllValid(ts)
    ensures |r| == |ts| && AllValid(r)
  {
    seq(|ts|, k requires 0 <= k < |ts| => Track(ts[k], text))
  }

  /** `text` with, in front of each character, the quotes of all trackers
      at that character. */
  function Merged(ts: seq<Tracker>, text: string): string
    requires AllValid(ts)
    decreases |text|
  {
    if text == [] then []
    else
      var front, ch := text[..|text| - 1], text[|text| - 1];
      Merged(ts, front) + Quotes(QuoteCount(TrackAll(ts, front), ch, |ts|)) + [ch]
  }

  /** The tracker loop moves each tracker on its own. */
  lemma {:induction false} ReactUpToAt(s: Scan, ch: char, j: nat, k: int)
    requires AllValid(s.trackers) && j <= |s.trackers| && 0 <= k < |s.trackers|
    ensures ReactUpTo(s, ch, j).trackers[k] == if k < j then React(s.trackers[k], ch).tracker else s.trackers[k]
  {
    if j > 0 {
      ReactUpToAt(s, ch, j - 1, k);
      ReactUpToAt(s, ch, j - 1, j - 1);
    }
  }

  /** ... and writes the quotes of all of them. */
  lemma ReactUpToOut(s: Scan, ch: char, j: nat)
    requires AllValid(s.trackers) && j <= |s.trackers|
    ensures ReactUpTo(s, ch, j).out == s.out + Quotes(QuoteCount(s.trackers, ch, j))
  {
    ReactUpToWritesQuotes(s, ch, j);
    ReactUpToLength(s, ch, j);
  }

  /** ... and one quote for each tracker that writes one. */
  lemma {:induction false} ReactUpToLength(s: Scan, ch: char, j: nat)
    requires AllValid(s.trackers) && j <= |s.trackers|
    ensures |ReactUpTo(s, ch, j).out| == |s.out| + QuoteCount(s.trackers, ch, j)
  {
    if j > 0 {
      ReactUpToLength(s, ch, j - 1);
      ReactUpToAt(s, ch, j - 1, j - 1);
    }
  }

  /** The counter agrees with the trackers. */
  predicate Counted(s: Scan) {
    AllValid(s.trackers) && s.ignoring == IgnoringCount(s.trackers)
  }

  /** One character, whether the shortcut is taken or not: every tracker
      reacts, and their quotes go in front of the character. */
  lemma ConsumeEach(s: Scan, ch: char)
    requires Counted(s)
    ensures var r := Reacted(s.trackers, ch);
            Consume(s, ch) == Scan(r, IgnoringCount(r), s.out + Quotes(QuoteCount(s.trackers, ch, |s.trackers|)) + [ch])
  {
    ShortcutTransparent(s, ch);
    LoopEach(s, ch);
  }

  /** The shortcut, when taken, gives what the tracker loop would. */
  lemma ShortcutTransparent(s: Scan, ch: char)
    requires Counted(s)
    ensures var r := ReactUpTo(s, ch, |s.trackers|);
            Consume(s, ch) == r.(out := r.out + [ch])
  {
    if s.ignoring == |s.trackers| {
      IgnoringCountAll(s.trackers);
      ShortcutAgrees(s, ch, |s.trackers|);
    }
  }

  /** The tracker loop over all trackers. */
  lemma LoopEach(s: Scan, ch: char)
    requires Counted(s)
    ensures var r := ReactUpTo(s, ch, |s.trackers|);
            r.trackers == Reacted(s.trackers, ch) && r.ignoring == IgnoringCount(r.trackers) &&
            r.out == s.out + Quotes(QuoteCount(s.trackers, ch, |s.trackers|))
  {
    var ts := s.trackers;
    var r := ReactUpTo(s, ch, |ts|);
    forall k | 0 <= k < |ts| ensures r.trackers[k] == Reacted(ts, ch)[k] {
      ReactUpToAt(s, ch, |ts|, k);
    }
    assert r.trackers == Reacted(ts, ch);
    ReactUpToOut(s, ch, |ts|);
    ReactUpToCounts(s, ch, |ts|);
  }

  /** A scan from a state whose counter agrees is every tracker on its own,
      with their quotes merged. */
  lemma {:induction false} RunEach(s: Scan, text: string)
    requires Counted(s)
    ensures var ts := TrackAll(s.trackers, text);
            Run(s, text) == Scan(ts, IgnoringCount(ts), s.out + Merged(s.trackers, text))
    decreases |text|
  {
    var ts := s.trackers;
    if text == [] {
      assert TrackAll(ts, text) == ts;
      assert s.out + [] == s.out;
    } else {
      var front, ch := text[..|text| - 1], text[|text| - 1];
      RunEach(s, front);
      var p := Run(s, front);
      ConsumeEach(p, ch);
      assert Reacted(p.trackers, ch) == TrackAll(ts, text);
      Associates(s.out, Merged(ts, front), Quotes(QuoteCount(p.trackers, ch, |ts|)));
      Associates(s.out, Merged(ts, front) + Quotes(QuoteCount(p.trackers, ch, |ts|)), [ch]);
    }
  }

  /** Only tracker m may write a quote in front of `ch`. */
  lemma {:induction false} QuoteCountOne(ts: seq<Tracker>, ch: char, m: int, j: nat)
    requires AllValid(ts) && j <= |ts| && 0 <= m < |ts|
    requires forall k :: 0 <= k < |ts| && k != m ==> !React(ts[k], ch).quote
    ensures QuoteCount(ts, ch, j) == if m < j && React(ts[m], ch).quote then 1 else 0
  {
    if j > 0 {
      QuoteCountOne(ts, ch, m, j - 1);
    }
  }

  /** When every tracker but m writes a text unchanged, the merged text is
      what m writes. */
  lemma {:induction false} MergedSolo(ts: seq<Tracker>, text: string, m: int)
    requires AllValid(ts) && 0 <= m < |ts|
    requires forall k :: 0 <= k < |ts| && k != m ==> Written(ts[k], text) == text
    ensures Merged(ts, text) == Written(ts[m], text)
    decreases |text|
  {
    if text != [] {
      var front, ch := text[..|text| - 1], text[|text| - 1];
      forall k | 0 <= k < |ts| && k != m
        ensures Written(ts[k], front) == front && !React(Track(ts[k], front), ch).quote
      {
        SilentStep(ts[k], text);
      }
      MergedSolo(ts, front, m);
      var all := TrackAll(ts, front);
      QuoteCountOne(all, ch, m, |ts|);
      assert Quotes(0) == [] && Quotes(1) == [Quote];
    }
  }

  /** Only tracker m may have a value open. */
  lemma {:induction false} PendingOne(ts: seq<Tracker>, m: int, j: nat)
    requires j <= |ts| && 0 <= m < |ts|
    requires forall k :: 0 <= k < |ts| && k != m ==> !ts[k].secondQuote
    ensures Pending(ts, j) == if m < j && ts[m].secondQuote then [Quote] else []
  {
    if j > 0 {
      PendingOne(ts, m, j - 1);
    }
  }

  // ---------------------------------------------------------------------------
  // Whole texts, line by line

  /** After `p` every tracker is fresh: `p` is empty, or ends a line that
      left nothing behind. */
  predicate AtLineStart(p: string) {
    Scanned(p).trackers == InitialTrackers()
  }

  /** At a line start no value is open, so the text returned is the text
      built so far. */
  lemma LineStartPending(p: string)
    requires AtLineStart(p)
    ensures QuotingFixes(p) == Scanned(p).out
  {
    PendingQuiet(InitialTrackers(), |Keys|);
    assert Scanned(p).out + [] == Scanned(p).out;
  }

  /** From a line start, a text on which every tracker but m writes
      nothing: the scan adds what m writes, and each tracker is where that
      text alone takes it. */
  lemma SoloScan(p: string, text: string, m: int)
    requires AtLineStart(p) && 0 <= m < |Keys|
    requires forall k :: 0 <= k < |Keys| && k != m ==> Written(InitialTrackers()[k], text) == text
    ensures Scanned(p + text).trackers == TrackAll(InitialTrackers(), text)
    ensures Scanned(p + text).out == Scanned(p).out + Written(InitialTrackers()[m], text)
  {
    ScannedThen(p, text);
    ScannedCountsIgnoring(p);
    RunEach(Scanned(p), text);
    MergedSolo(InitialTrackers(), text, m);
  }

  /** A line after which every tracker is fresh again, on which every
      tracker but m writes nothing: what the scan adds is what m writes. */
  lemma LineStep(p: string, line: string, m: int)
    requires AtLineStart(p) && 0 <= m < |Keys|
    requires forall k :: 0 <= k < |Keys| ==> Track(InitialTrackers()[k], line) == InitialTrackers()[k]
    requires forall k :: 0 <= k < |Keys| && k != m ==> Written(InitialTrackers()[k], line) == line
    ensures AtLineStart(p + line)
    ensures QuotingFixes(p + line) == QuotingFixes(p) + Written(InitialTrackers()[m], line)
  {
    SoloScan(p, line, m);
    assert TrackAll(InitialTrackers(), line) == InitialTrackers();
    LineStartPending(p);
    LineStartPending(p + line);
  }

  /** The last stretch of a text, on which every tracker but m writes
      nothing and leaves no value open: what is added is what m writes,
      and a closing quote if m's value is still open. */
  lemma EndStep(p: string, text: string, m: int)
    requires AtLineStart(p) && 0 <= m < |Keys|
    requires forall k :: 0 <= k < |Keys| && k != m ==>
               Written(InitialTrackers()[k], text) == text && !Track(InitialTrackers()[k], text).secondQuote
    ensures QuotingFixes(p + text) ==
              QuotingFixes(p) + Written(InitialTrackers()[m], text) +
              (if Track(InitialTrackers()[m], text).secondQuote then [Quote] else [])
  {
    SoloScan(p, text, m);
    var after := TrackAll(InitialTrackers(), text);
    PendingOne(after, m, |after|);
    LineStartPending(p);
  }

  /** Nothing is pending before the text starts. */
  lemma TextStartsAtLineStart()
    ensures AtLineStart([])
  {
  }

  /** A line `key: value`, for one of the five keys, with optional spaces
      before the key and between the colon and the value: the value comes
      out between quotes, each quote in it doubled, the closing quote just
      before the newline; and the next line starts fresh. */
  lemma KeyValueQuoted(p: string, a: nat, m: int, b: nat, value: string)
    requires AtLineStart(p) && 0 <= m < |Keys|
    requires value != [] && value[0] != ' ' && '\n' !in value
    ensures var line := Spaces(a) + Keys[m] + Spaces(b) + value + "\n";
            AtLineStart(p + line) &&
            QuotingFixes(p + line) ==
              QuotingFixes(p) + (Spaces(a) + Keys[m] + Spaces(b) + [Quote, value[0]] + Escaped(value[1..]) + [Quote, '\n'])
  {
    KeyLetters();
    var key := Keys[m];
    var line := Spaces(a) + key + Spaces(b) + value + "\n";
    var word := key + Spaces(b) + value;
    Associates(Spaces(a), key + Spaces(b), value);
    Associates(Spaces(a), key, Spaces(b));
    assert Spaces(a) + word + "\n" == line;
    forall k | 0 <= k < |Keys| && k != m
      ensures Track(InitialTrackers()[k], line) == InitialTrackers()[k] && Written(InitialTrackers()[k], line) == line
    {
      LineGivenUp(Keys[k], a, word);
    }
    KeyLineTrack(key, a, b, value);
    LineStep(p, line, m);
  }

  /** The same line at the very end of the text, with no newline after it:
      the closing quote goes at the end. */
  lemma LastKeyValueQuoted(p: string, a: nat, m: int, b: nat, value: string)
    requires AtLineStart(p) && 0 <= m < |Keys|
    requires value != [] && value[0] != ' ' && '\n' !in value
    ensures QuotingFixes(p + (Spaces(a) + Keys[m] + Spaces(b) + value)) ==
              QuotingFixes(p) + (Spaces(a) + Keys[m] + Spaces(b) + [Quote, value[0]] + Escaped(value[1..]) + [Quote])
  {
    KeyLetters();
    var key := Keys[m];
    var text := Spaces(a) + key + Spaces(b) + value;
    var word := key + Spaces(b) + value;
    Associates(Spaces(a), key + Spaces(b), value);
    Associates(Spaces(a), key, Spaces(b));
    assert Spaces(a) + word == text;
    forall k | 0 <= k < |Keys| && k != m
      ensures Written(InitialTrackers()[k], text) == text && !Track(InitialTrackers()[k], text).secondQuote
    {
      GivenUpMidLine(Keys[k], a, word);
    }
    KeyValueTrack(key, a, b, value);
    EndStep(p, text, m);
    var quoted := Spaces(a) + key + Spaces(b) + [Quote, value[0]] + Escaped(value[1..]);
    Associates(QuotingFixes(p), quoted, [Quote]);
  }

  /** A line whose first word parts from the key, up to the end of the
      text: the tracker writes nothing and has no value open. */
  lemma GivenUpMidLine(key: string, a: nat, word: string)
    requires NewTracker(key).Valid() && key[0] != ' '
    requires PartsFrom(word, key) && '\n' !in word
    ensures Written(NewTracker(key), Spaces(a) + word) == Spaces(a) + word
    ensures !Track(NewTracker(key), Spaces(a) + word).secondQuote
  {
    var t := NewTracker(key);
    SpacesKeep(t, a);
    assert key[0..] == key;
    GivesUpFrom(key, 0, word);
    Chain(t, Spaces(a), word, t, Spaces(a), Track(t, word), word);
  }

  /** A key with no value on its line is left as it is. */
  lemma EmptyValueKept(p: string, a: nat, m: int, b: nat)
    requires AtLineStart(p) && 0 <= m < |Keys|
    ensures var line := Spaces(a) + Keys[m] + Spaces(b) + "\n";
            AtLineStart(p + line) && QuotingFixes(p + line) == QuotingFixes(p) + line
  {
    KeyLetters();
    var key := Keys[m];
    var line := Spaces(a) + key + Spaces(b) + "\n";
    var word := key + Spaces(b);
    Associates(Spaces(a), key, Spaces(b));
    assert Spaces(a) + word + "\n" == line;
    forall k | 0 <= k < |Keys| && k != m
      ensures Track(InitialTrackers()[k], line) == InitialTrackers()[k] && Written(InitialTrackers()[k], line) == line
    {
      LineGivenUp(Keys[k], a, word);
    }
    EmptyValueTrack(key, a, b);
    LineStep(p, line, m);
  }

  /** A line whose first word parts from every key, before any space in it,
      is left as it is. */
  lemma OtherLineKept(p: string, a: nat, word: string)
    requires AtLineStart(p) && '\n' !in word
    requires forall k :: 0 <= k < |Keys| ==> PartsFrom(word, Keys[k])
    ensures var line := Spaces(a) + word + "\n";
            AtLineStart(p + line) && QuotingFixes(p + line) == QuotingFixes(p) + line
  {
    KeyLetters();
    var line := Spaces(a) + word + "\n";
    forall k | 0 <= k < |Keys|
      ensures Track(InitialTrackers()[k], line) == InitialTrackers()[k] && Written(InitialTrackers()[k], line) == line
    {
      LineGivenUp(Keys[k], a, word);
    }
    LineStep(p, line, 0);
  }

  /** A line that is empty or all spaces makes every tracker give up on the
      line after it, so that line is left as it is even when it sets one of
      the keys. */
  lemma LineAfterBlankKept(p: string, a: nat, next: string)
    requires AtLineStart(p) && '\n' !in next
    ensures var lines := Spaces(a) + "\n" + next + "\n";
            AtLineStart(p + lines) && QuotingFixes(p + lines) == QuotingFixes(p) + lines
  {
    KeyLetters();
    var lines := Spaces(a) + "\n" + next + "\n";
    forall k | 0 <= k < |Keys|
      ensures Track(InitialTrackers()[k], lines) == InitialTrackers()[k] && Written(InitialTrackers()[k], lines) == lines
    {
      BlankLineTrack(Keys[k], a, next);
    }
    LineStep(p, lines, 0);
  }

  /** A driver line as the sim writes it. */
  lemma QuotedExample(line: string)
    requires line == "UserName: O'Neil\n"
    ensures QuotingFixes(line) == "UserName: 'O''Neil'\n"
  {
    var value := "O'Neil";
    ExampleShape(line, value);
    LineStartPending([]);
    KeyValueQuoted([], 0, 2, 1, value);
    ExampleQuoted(value);
    assert [] + line == line;
  }

  lemma ExampleShape(line: string, value: string)
    requires line == "UserName: O'Neil\n" && value == "O'Neil"
    ensures Spaces(0) + Keys[2] + Spaces(1) + value + "\n" == line
  {
    assert Keys[2] == "UserName:";
    assert Spaces(0) == [] && Spaces(1) == " ";
    assert [] + "UserName:" + " " + value + "\n" == line;
  }

  lemma ExampleQuoted(value: string)
    requires value == "O'Neil"
    ensures [] + (Spaces(0) + Keys[2] + Spaces(1) + [Quote, value[0]] + Escaped(value[1..]) + [Quote, '\n']) ==
            "UserName: 'O''Neil'\n"
  {
    assert Keys[2] == "UserName:";
    assert Spaces(0) == [] && Spaces(1) == " ";
    var rest := value[1..];
    assert rest == "'Neil";
    EscapedStep(rest, 1, [Quote, Quote]);
    EscapedStep(rest, 2, "''N");
    EscapedStep(rest, 3, "''Ne");
    EscapedStep(rest, 4, "''Nei");
    EscapedStep(rest, 5, "''Neil");
    assert rest[..5] == rest;
  }

  /** One more character of a value, escaped. */
  lemma EscapedStep(value: string, i: nat, e: string)
    requires 0 < i <= |value|
    requires e == Escaped(value[..i - 1]) + (if value[i - 1] == Quote then [Quote, Quote] else [value[i - 1]])
    ensures Escaped(value[..i]) == e
  {
    assert value[..i][..i - 1] == value[..i - 1];
  }

  /** The same line after an empty line is left unquoted. */
  lemma AfterBlankExample(line: string)
    requires line == "UserName: O'Neil\n"
    ensures QuotingFixes("\n" + line) == "\n" + line
  {
    var next := line[..|line| - 1];
    assert '\n' !in next;
    LineStartPending([]);
    LineAfterBlankKept([], 0, next);
    assert Spaces(0) == [];
    assert next + "\n" == line;
    var lines := Spaces(0) + "\n" + next + "\n";
    assert lines == "\n" + line;
    assert [] + lines == lines;
  }
}
