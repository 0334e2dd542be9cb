// internal/cli/managed_sections.go: the block of a user's file that is the
// program's to rewrite, bounded by a pair of marker comments.
module ManagedSections {
  import opened Search
  import opened Text

  datatype MarkerPair = MarkerPair(begin: string, end: string)
  {
    /** Markers are single-line comments. */
    predicate SingleLine() { begin != "" && end != "" && '\n' !in begin && '\n' !in end }

    /** Neither marker's text contains the other's. */
    predicate Apart() { Index(begin, end) == -1 && Index(end, begin) == -1 }

    function Parse(content: string): Parsed
      requires begin != "" && end != ""
    {
      var begins, ends := Count(content, begin), Count(content, end);
      if begins == 0 && ends == 0 then Minted(Section(this, begin + "\n" + Line(content) + end + "\n"))
      else
        var trimmed := TrimSpace(content);
        if begins == 1 && ends == 1 && HasPrefix(trimmed, begin) && HasSuffix(trimmed, end) then
          Minted(Section(this, trimmed + "\n"))
        else Rejected(begins, ends)
    }
  }

  datatype Section = Section(pair: MarkerPair, text: string)
  {
    /** The block, reading it as a file, is exactly what a run would replace: its
        begin comes first, then its end, on its last line. */
    predicate Converges() {
      var p := Index(text, pair.end);
      Index(text, pair.begin) == 0 && p > 0 && p + |pair.end| < |text| &&
      text[|text| - 1] == '\n' && Index(text[p + |pair.end|..], "\n") == |text| - 1 - (p + |pair.end|)
    }
  }

  datatype Parsed = Minted(section: Section) | Rejected(begins: nat, ends: nat)

  /** content, ended by a newline. */
  function Line(content: string): string {
    if HasSuffix(content, "\n") then content else content + "\n"
  }

  datatype Update = Update(content: string, changed: bool)

  function LineStart(content: string, at: nat): (start: nat)
    requires at <= |content|
    ensures start <= at
  {
    var newline := LastIndex(content[..at], "\n");
    if newline == -1 then 0 else newline + 1
  }

  function LineEnd(content: string, at: nat): (end: nat)
    requires at <= |content|
    ensures at <= end <= |content|
  {
    var newline := Index(content[at..], "\n");
    if newline == -1 then |content| else at + newline + 1
  }

  function Replaced(content: string, text: string, from: nat, upto: nat): Update
    requires from <= |content| && upto <= |content|
  {
    var updated := content[..from] + text + content[upto..];
    Update(updated, updated != content)
  }

  function Appended(content: string, text: string): Update {
    var updated := if TrimSpace(content) == "" then text else Line(content) + "\n" + text;
    Update(updated, updated != content)
  }

  function Upsert(content: string, section: Section): Update {
    UpsertAt(content, section.text, Index(content, section.pair.begin), Index(content, section.pair.end),
      |section.pair.end|)
  }

  /** The run, given where the markers were found: start the begin, end the end. */
  function UpsertAt(content: string, text: string, start: int, end: int, marker: nat): Update
    requires start == -1 || 0 <= start <= |content|
    requires end == -1 || 0 <= end <= |content| - marker
  {
    if start != -1 && end != -1 && start < end then
      Replaced(content, text, LineStart(content, start), LineEnd(content, end + marker))
    else Appended(content, text)
  }

  /** A run reports a change exactly when it leaves other content than it found. */
  lemma ReportsItsChanges(content: string, section: Section)
    ensures Upsert(content, section).changed <==> Upsert(content, section).content != content
  {
  }

  // ---- Where a marker can be ----

  /** No occurrence of sub straddles the end of ahead. */
  predicate Cuts(ahead: string, sub: string) {
    |sub| == 1 || (sub != "" && '\n' !in sub && (ahead == "" || ahead[|ahead| - 1] == '\n'))
  }

  lemma Differs(s: string, sub: string, i: nat, m: nat)
    requires m < |sub| && i + m < |s| && s[i + m] != sub[m]
    ensures !At(s, i, sub)
  {
    AtChars(s, i, sub);
  }

  lemma OnOneSide(ahead: string, rest: string, sub: string, j: nat)
    requires Cuts(ahead, sub)
    ensures At(ahead + rest, j, sub) <==> if j < |ahead| then At(ahead, j, sub) else At(rest, j - |ahead|, sub)
  {
    var whole := ahead + rest;
    if j >= |ahead| {
      if j + |sub| <= |whole| {
        assert whole[j..j + |sub|] == rest[j - |ahead|..j - |ahead| + |sub|];
      }
    } else if j + |sub| <= |ahead| {
      assert whole[j..j + |sub|] == ahead[j..j + |sub|];
    } else {
      var m := |ahead| - 1 - j;
      assert whole[j + m] == ahead[|ahead| - 1] == '\n' && sub[m] in sub;
      Differs(whole, sub, j, m);
    }
  }

  lemma IndexIn(ahead: string, rest: string, sub: string)
    requires Cuts(ahead, sub)
    ensures Index(ahead + rest, sub) ==
      if Index(ahead, sub) != -1 then Index(ahead, sub)
      else if Index(rest, sub) != -1 then |ahead| + Index(rest, sub)
      else -1
  {
    var i, j, k := Index(ahead, sub), Index(rest, sub), Index(ahead + rest, sub);
    if i != -1 {
      OnOneSide(ahead, rest, sub, i);
    }
    if j != -1 {
      OnOneSide(ahead, rest, sub, |ahead| + j);
    }
    if k != -1 {
      OnOneSide(ahead, rest, sub, k);
    }
  }

  lemma LineHolds(content: string, sub: string)
    requires sub != "" && '\n' !in sub
    ensures Index(Line(content), sub) == Index(content, sub)
    ensures Index(Line(content) + "\n", sub) == Index(content, sub)
    ensures Line(content) != "" && Line(content)[|Line(content)| - 1] == '\n'
  {
    AtChars(content, |content| - 1, "\n");
    if !HasSuffix(content, "\n") {
      BeforeNewline(content, sub);
    }
    NotNewline(sub);
    IndexIn(Line(content), "\n", sub);
  }

  lemma BeforeNewline(content: string, sub: string)
    requires sub != "" && '\n' !in sub
    ensures Index(content + "\n", sub) == Index(content, sub)
  {
    var k, i := Index(content + "\n", sub), Index(content, sub);
    EndsBeforeNewline(content, sub, k);
    if i != -1 {
      assert (content + "\n")[i..i + |sub|] == content[i..i + |sub|];
      assert At(content + "\n", i, sub);
    }
  }

  lemma EndsBeforeNewline(content: string, sub: string, k: int)
    requires sub != "" && '\n' !in sub
    ensures At(content + "\n", k, sub) ==> At(content, k, sub)
  {
    var line := content + "\n";
    if At(line, k, sub) {
      AtChars(line, k, sub);
      assert sub[|sub| - 1] == line[k + (|sub| - 1)];
      assert line[k..k + |sub|] == content[k..k + |sub|];
    }
  }

  lemma NotNewline(sub: string)
    requires sub != "" && '\n' !in sub
    ensures Index("\n", sub) == -1
  {
    AtChars("\n", 0, sub);
    assert sub[0] != '\n';
    assert "\n"[0 + 0] != sub[0];
  }

  // ---- What parse mints ----

  lemma CountsNone(s: string, sub: string)
    requires sub != ""
    ensures Count(s, sub) == 0 <==> Index(s, sub) == -1
  {
  }

  lemma OccursBehind(s: string, sub: string, cut: nat, j: nat)
    requires At(s, j, sub) && cut <= j
    ensures Index(s[cut..], sub) != -1
  {
    assert s[cut..][j - cut..j - cut + |sub|] == s[j..j + |sub|];
    assert At(s[cut..], j - cut, sub);
  }

  /** One counted occurrence means no two that do not overlap. */
  lemma CountsOne(s: string, sub: string, i: nat, j: nat)
    requires sub != "" && Count(s, sub) == 1 && At(s, i, sub) && At(s, j, sub)
    ensures i + |sub| > j
  {
    var cut := Index(s, sub) + |sub|;
    if i + |sub| <= j {
      OccursBehind(s, sub, cut, j);
    }
  }

  /** The marker occurs, and wherever else it occurs it overlaps that. */
  ghost predicate Once(s: string, sub: string) {
    exists i :: At(s, i, sub) && forall j :: At(s, j, sub) ==> i <= j < i + |sub|
  }

  lemma CountsOnce(s: string, sub: string)
    requires sub != ""
    ensures Count(s, sub) == 1 <==> Once(s, sub)
  {
    CountsNone(s, sub);
    if Index(s, sub) != -1 {
      var cut := Index(s, sub) + |sub|;
      CountsOn(s, sub, cut);
      CountsNone(s[cut..], sub);
      OnceIs(s, sub, Index(s, sub), cut);
    } else {
      NowhereOnce(s, sub);
    }
  }

  lemma NowhereOnce(s: string, sub: string)
    requires Index(s, sub) == -1
    ensures !Once(s, sub)
  {
  }

  lemma CountsOn(s: string, sub: string, cut: nat)
    requires sub != "" && Index(s, sub) != -1 && cut == Index(s, sub) + |sub|
    ensures Count(s, sub) == 1 + Count(s[cut..], sub)
  {
  }

  lemma OnceIs(s: string, sub: string, first: nat, cut: nat)
    requires sub != "" && Index(s, sub) == first && cut == first + |sub|
    ensures Once(s, sub) <==> Index(s[cut..], sub) == -1
  {
    OccursAhead(s, sub, cut);
    forall j | At(s, j, sub) && cut <= j ensures Index(s[cut..], sub) != -1 {
      OccursBehind(s, sub, cut, j);
    }
    assert At(s, first, sub);
  }

  lemma OccursAhead(s: string, sub: string, cut: nat)
    requires cut <= |s|
    ensures var j := Index(s[cut..], sub); j != -1 ==> At(s, cut + j, sub)
  {
    var j := Index(s[cut..], sub);
    if j != -1 {
      assert s[cut + j..cut + j + |sub|] == s[cut..][j..j + |sub|];
    }
  }

  /** A template is rejected exactly when it holds a marker and is not one block: each
      marker once, the begin first of it and the end last, white space aside. */
  lemma RejectsExactly(pair: MarkerPair, content: string)
    requires pair.begin != "" && pair.end != ""
    ensures pair.Parse(content).Rejected? <==>
      (Index(content, pair.begin) != -1 || Index(content, pair.end) != -1) &&
      !(Once(content, pair.begin) && Once(content, pair.end) &&
        HasPrefix(TrimSpace(content), pair.begin) && HasSuffix(TrimSpace(content), pair.end))
    ensures pair.Parse(content).Rejected? ==>
      pair.Parse(content) == Rejected(Count(content, pair.begin), Count(content, pair.end))
  {
    CountsNone(content, pair.begin);
    CountsNone(content, pair.end);
    CountsOnce(content, pair.begin);
    CountsOnce(content, pair.end);
  }

  /** A template that is one block is minted as it stands, less the white space around it. */
  lemma ABlockPassesThrough(pair: MarkerPair, pre: string, block: string, post: string)
    requires IsBlank(pre) && IsBlank(post) && HasPrefix(block, pair.begin) && HasSuffix(block, pair.end)
    requires pair.begin != "" && pair.end != "" && !IsSpace(pair.begin[0]) && !IsSpace(pair.end[|pair.end| - 1])
    requires Once(pre + block + post, pair.begin) && Once(pre + block + post, pair.end)
    ensures pair.Parse(pre + block + post) == Minted(Section(pair, block + "\n"))
  {
    assert block[..|pair.begin|][0] == block[0];
    assert block[|block| - |pair.end|..][|pair.end| - 1] == block[|block| - 1];
    TrimsTo(pre, block, post);
    CountsOnce(pre + block + post, pair.begin);
    CountsOnce(pre + block + post, pair.end);
  }

  /** Plain content is minted between its markers, on lines of its own. */
  lemma PlainContentIsWrapped(pair: MarkerPair, content: string)
    requires pair.begin != "" && pair.end != ""
    requires Index(content, pair.begin) == -1 && Index(content, pair.end) == -1
    ensures pair.Parse(content) == Minted(Section(pair,
      pair.begin + "\n" + content + (if HasSuffix(content, "\n") then "" else "\n") + pair.end + "\n"))
  {
    CountsNone(content, pair.begin);
    CountsNone(content, pair.end);
    assert content + "" == content;
    assert pair.begin + "\n" + Line(content) ==
      pair.begin + "\n" + content + if HasSuffix(content, "\n") then "" else "\n";
  }

  lemma NewlineAt(rest: string, more: string)
    requires '\n' !in rest
    ensures Index(rest + "\n" + more, "\n") == |rest|
  {
    var whole := rest + "\n" + more;
    AtChars(whole, |rest|, "\n");
    forall j | 0 <= j < |rest| ensures !At(whole, j, "\n") {
      AtChars(whole, j, "\n");
      assert whole[j + 0] == rest[j];
    }
  }

  lemma WrapFinds(pair: MarkerPair, content: string, text: string)
    requires pair.SingleLine() && Index(content, pair.end) == -1
    requires text == pair.begin + "\n" + Line(content) + pair.end + "\n"
    ensures Index(text, pair.begin) == 0
    ensures Index(text, pair.end) ==
      if Index(pair.begin, pair.end) != -1 then Index(pair.begin, pair.end) else |pair.begin| + 1 + |Line(content)|
  {
    var head, body, tail := pair.begin + "\n", Line(content), pair.end + "\n";
    assert text == head + (body + tail);
    assert text[0..|pair.begin|] == pair.begin;
    NewlineAdded(pair.begin, pair.end);
    LineHolds(content, pair.end);
    IndexIn(head, body + tail, pair.end);
    IndexIn(body, tail, pair.end);
    assert tail[0..|pair.end|] == pair.end;
    assert At(text, 0, pair.begin) && At(tail, 0, pair.end);
  }

  lemma FirstLineIs(text: string, cut: nat, line: nat)
    requires cut <= line < |text| && text[line] == '\n' && '\n' !in text[cut..line]
    ensures Index(text[cut..], "\n") == line - cut
  {
    assert text[cut..] == text[cut..line] + "\n" + text[line + 1..];
    NewlineAt(text[cut..line], text[line + 1..]);
  }

  /** Plain content is wrapped into a block that converges exactly when the begin
      marker does not itself contain the end marker. */
  lemma WrapConverges(pair: MarkerPair, content: string)
    requires pair.SingleLine() && Count(content, pair.begin) == 0 && Count(content, pair.end) == 0
    ensures pair.Parse(content).Minted?
    ensures pair.Parse(content).section.Converges() <==> Index(pair.begin, pair.end) == -1
  {
    var text := pair.Parse(content).section.text;
    CountsNone(content, pair.end);
    WrapFinds(pair, content, text);
    WrapEnds(pair, text, |text| - |pair.end| - 1);
  }

  lemma WrapEnds(pair: MarkerPair, text: string, last: nat)
    requires pair.SingleLine() && |pair.begin| < last && last + |pair.end| + 1 == |text| && text[|text| - 1] == '\n'
    requires text[..|pair.begin|] == pair.begin && text[|pair.begin|] == '\n' && Index(text, pair.begin) == 0
    requires Index(text, pair.end) == if Index(pair.begin, pair.end) != -1 then Index(pair.begin, pair.end) else last
    ensures Section(pair, text).Converges() <==> Index(pair.begin, pair.end) == -1
  {
    if Index(pair.begin, pair.end) == -1 {
      FirstLineIs(text, |text| - 1, |text| - 1);
    } else {
      var at := Index(pair.begin, pair.end) + |pair.end|;
      assert text[at..|pair.begin|] == pair.begin[at..];
      FirstLineIs(text, at, |pair.begin|);
    }
  }

  lemma Shifted(s: string, from: nat, part: string, sub: string, i: int)
    requires from + |part| <= |s| && s[from..from + |part|] == part && At(part, i, sub)
    ensures At(s, from + i, sub)
  {
    AtChars(part, i, sub);
    AtChars(s, from + i, sub);
    forall k | 0 <= k < |sub| ensures s[from + i + k] == sub[k] {
      assert s[from..from + |part|][i + k] == part[i + k];
    }
  }

  lemma TrimmedOnce(content: string, sub: string, i: nat, j: nat)
    requires sub != "" && Count(content, sub) == 1 && At(TrimSpace(content), i, sub) && At(TrimSpace(content), j, sub)
    ensures i + |sub| > j
  {
    var from := TrimCuts(content);
    OnceInPart(content, from, TrimSpace(content), sub, i, j);
  }

  lemma OnceInPart(s: string, from: nat, part: string, sub: string, i: nat, j: nat)
    requires from + |part| <= |s| && s[from..from + |part|] == part
    requires sub != "" && Count(s, sub) == 1 && At(part, i, sub) && At(part, j, sub)
    ensures i + |sub| > j
  {
    Shifted(s, from, part, sub, i);
    Shifted(s, from, part, sub, j);
    CountsOne(s, sub, from + i, from + j);
  }

  lemma PrefixInPrefix(s: string, a: string, b: string)
    ensures At(s, 0, a) && At(s, 0, b) && |a| <= |b| ==> Index(b, a) != -1
  {
    if At(s, 0, a) && At(s, 0, b) && |a| <= |b| {
      assert b[0..|a|] == s[0..|b|][..|a|] == s[0..|a|];
      assert At(b, 0, a);
    }
  }

  lemma NotBothFirst(pair: MarkerPair, s: string)
    requires pair.Apart() && At(s, 0, pair.begin)
    ensures !At(s, 0, pair.end)
  {
    PrefixInPrefix(s, pair.begin, pair.end);
    PrefixInPrefix(s, pair.end, pair.begin);
  }

  /** A block whose first end reaches its last line. */
  lemma EndsTheBlock(block: string, end: string)
    requires end != "" && '\n' !in end && HasSuffix(block, end) && Index(block, end) + |end| > |block| - |end|
    ensures var text, at := block + "\n", Index(block, end) + |end|;
      Index(text, end) == Index(block, end) && at < |text| && Index(text[at..], "\n") == |text| - 1 - at
  {
    var text, at := block + "\n", Index(block, end) + |end|;
    NewlineAdded(block, end);
    WithinLast(block, end, at);
    assert text[at..|block|] == block[at..];
    FirstLineIs(text, at, |block|);
  }

  lemma BlockConverges(pair: MarkerPair, content: string)
    requires pair.SingleLine() && pair.Apart() && Count(content, pair.end) == 1
    requires HasPrefix(TrimSpace(content), pair.begin) && HasSuffix(TrimSpace(content), pair.end)
    ensures Section(pair, TrimSpace(content) + "\n").Converges()
  {
    var block := TrimSpace(content);
    TrimmedOnce(content, pair.end, Index(block, pair.end), |block| - |pair.end|);
    OneBlockConverges(pair, block);
  }

  lemma OneBlockConverges(pair: MarkerPair, block: string)
    requires pair.SingleLine() && pair.Apart() && HasPrefix(block, pair.begin) && HasSuffix(block, pair.end)
    requires Index(block, pair.end) + |pair.end| > |block| - |pair.end|
    ensures Section(pair, block + "\n").Converges()
  {
    NotBothFirst(pair, block);
    EndsTheBlock(block, pair.end);
    NewlineAdded(block, pair.begin);
  }

  /** What follows a cut inside the last marker is on that marker's line. */
  lemma WithinLast(block: string, end: string, cut: nat)
    requires HasSuffix(block, end) && '\n' !in end && |block| - |end| <= cut <= |block|
    ensures '\n' !in block[cut..]
  {
    var last := |block| - |end|;
    forall k | cut <= k < |block| ensures block[k] != '\n' {
      assert block[k] == block[last..][k - last];
    }
  }

  lemma NewlineAdded(block: string, sub: string)
    requires '\n' !in sub && sub != ""
    ensures Index(block + "\n", sub) == Index(block, sub)
  {
    BeforeNewline(block, sub);
  }

  /** Every section parse mints converges. */
  lemma MintedConverges(pair: MarkerPair, content: string)
    requires pair.SingleLine() && pair.Apart() && pair.Parse(content).Minted?
    ensures pair.Parse(content).section.pair == pair && pair.Parse(content).section.Converges()
  {
    if Count(content, pair.begin) == 0 && Count(content, pair.end) == 0 {
      WrapConverges(pair, content);
    } else {
      BlockConverges(pair, content);
    }
  }

  lemma ForeignCharacter(s: string, sub: string, k: nat)
    requires k < |sub| && sub[k] !in s
    ensures Index(s, sub) == -1
  {
    NotAt(s, sub, k, Index(s, sub));
  }

  lemma NotAt(s: string, sub: string, k: nat, i: int)
    requires k < |sub| && sub[k] !in s
    ensures !At(s, i, sub)
  {
    AtChars(s, i, sub);
    if 0 <= i && i + |sub| <= |s| {
      assert s[i + k] != sub[k];
    }
  }

  /** The markers the hooks are written with, and the older ones. */
  predicate HookMarkers(pair: MarkerPair) {
    pair == MarkerPair("# --- BEGIN LIT INTEGRATION ---", "# --- END LIT INTEGRATION ---") ||
    pair == MarkerPair("# --- BEGIN LINKS INTEGRATION ---", "# --- END LINKS INTEGRATION ---")
  }

  /** They meet every condition asked of a pair here. */
  lemma HookMarkersAreSound(pair: MarkerPair)
    requires HookMarkers(pair)
    ensures pair.SingleLine() && pair.Apart() && !IsBlank(pair.begin) && !IsBlank(pair.end)
  {
    HookBegins(pair.begin);
    HookEnds(pair.end);
    assert !IsSpace('#');
    MarkersApart(pair);
  }

  lemma MarkersApart(pair: MarkerPair)
    requires |pair.begin| > 8 && |pair.end| > 8 && pair.begin[6] !in pair.end && pair.end[8] !in pair.begin
    ensures pair.Apart()
  {
    ForeignCharacter(pair.end, pair.begin, 6);
    ForeignCharacter(pair.begin, pair.end, 8);
  }

  lemma HookBegins(begin: string)
    requires begin == "# --- BEGIN LIT INTEGRATION ---" || begin == "# --- BEGIN LINKS INTEGRATION ---"
    ensures |begin| > 8 && begin[0] == '#' && begin[6] == 'B' && 'D' !in begin && '\n' !in begin
  {
    assert begin[0] == '#';
    if begin == "# --- BEGIN LIT INTEGRATION ---" {
      LitBegin(begin);
    } else {
      LinksBegin(begin);
    }
  }

  lemma LitBegin(begin: string)
    requires begin == "# --- BEGIN LIT INTEGRATION ---"
    ensures 'D' !in begin && '\n' !in begin
  {
  }

  lemma LinksBegin(begin: string)
    requires begin == "# --- BEGIN LINKS INTEGRATION ---"
    ensures 'D' !in begin && '\n' !in begin
  {
  }

  lemma HookEnds(end: string)
    requires end == "# --- END LIT INTEGRATION ---" || end == "# --- END LINKS INTEGRATION ---"
    ensures |end| > 8 && end[0] == '#' && end[8] == 'D' && 'B' !in end && '\n' !in end
  {
    assert end[0] == '#';
    if end == "# --- END LIT INTEGRATION ---" {
      LitEnd(end);
    } else {
      LinksEnd(end);
    }
  }

  lemma LitEnd(end: string)
    requires end == "# --- END LIT INTEGRATION ---"
    ensures 'B' !in end && '\n' !in end
  {
  }

  lemma LinksEnd(end: string)
    requires end == "# --- END LINKS INTEGRATION ---"
    ensures 'B' !in end && '\n' !in end
  {
  }

  // ---- What a run leaves ----

  /** The section sits between pre, whole lines holding neither marker, and post. */
  predicate Placed(content: string, section: Section, pre: string, post: string) {
    content == pre + section.text + post &&
    (pre == "" || pre[|pre| - 1] == '\n') &&
    Index(pre, section.pair.begin) == -1 && Index(pre, section.pair.end) == -1
  }

  lemma PlacedIsFound(content: string, section: Section, pre: string, post: string)
    requires section.pair.SingleLine() && section.Converges() && Placed(content, section, pre, post)
    ensures Index(content, section.pair.begin) == |pre|
    ensures Index(content, section.pair.end) == |pre| + Index(section.text, section.pair.end)
  {
    var text := section.text;
    assert content == pre + (text + post);
    IndexIn(pre, text + post, section.pair.begin);
    IndexIn(text, post, section.pair.begin);
    IndexIn(pre, text + post, section.pair.end);
    IndexIn(text, post, section.pair.end);
  }

  /** The lines a run would replace are the section itself. */
  lemma PlacedSpan(pre: string, text: string, post: string, end: nat)
    requires pre == "" || pre[|pre| - 1] == '\n'
    requires end < |text| && Index(text[end..], "\n") == |text| - 1 - end
    ensures var content := pre + text + post;
      LineStart(content, |pre|) == |pre| && LineEnd(content, |pre| + end) == |pre| + |text|
  {
    StartsItsLine(pre, text + post);
    EndsItsLine(pre, text, post, end);
    assert pre + (text + post) == pre + text + post;
  }

  lemma ReplacedByItself(pre: string, text: string, post: string)
    ensures Replaced(pre + text + post, text, |pre|, |pre| + |text|) == Update(pre + text + post, false)
  {
    var content := pre + text + post;
    assert content[..|pre|] == pre && content[|pre| + |text|..] == post;
  }

  /** A file that holds the section after such lines is left as it is. */
  lemma PlacedStays(content: string, section: Section, pre: string, post: string)
    requires section.pair.SingleLine() && section.Converges() && Placed(content, section, pre, post)
    ensures Upsert(content, section) == Update(content, false)
  {
    PlacedIsReplaced(content, section, pre, post);
    ReplacedByItself(pre, section.text, post);
  }

  lemma PlacedIsReplaced(content: string, section: Section, pre: string, post: string)
    requires section.pair.SingleLine() && section.Converges() && Placed(content, section, pre, post)
    ensures Upsert(content, section) == Replaced(content, section.text, |pre|, |pre| + |section.text|)
  {
    var at := PlacedUpTo(content, section, pre, post);
    FoundIsReplaced(content, section, |pre|, at, |pre|, |pre| + |section.text|);
  }

  /** Where the section's end marker stops, and the lines a run finds around it. */
  lemma PlacedUpTo(content: string, section: Section, pre: string, post: string) returns (at: nat)
    requires section.pair.SingleLine() && section.Converges() && Placed(content, section, pre, post)
    ensures Index(content, section.pair.begin) == |pre| < Index(content, section.pair.end)
    ensures at == Index(content, section.pair.end) + |section.pair.end| && at <= |content|
    ensures LineStart(content, |pre|) == |pre| && LineEnd(content, at) == |pre| + |section.text|
  {
    at := |pre| + Index(section.text, section.pair.end) + |section.pair.end|;
    PlacedIsFound(content, section, pre, post);
    PlacedLines(content, section, pre, post, at);
  }

  lemma PlacedLines(content: string, section: Section, pre: string, post: string, at: nat)
    requires section.Converges() && content == pre + section.text + post && (pre == "" || pre[|pre| - 1] == '\n')
    requires at == |pre| + Index(section.text, section.pair.end) + |section.pair.end|
    ensures at <= |content| && LineStart(content, |pre|) == |pre|
    ensures LineEnd(content, at) == |pre| + |section.text|
  {
    PlacedSpan(pre, section.text, post, at - |pre|);
  }

  /** A run over a file whose begin and end are known replaces between known lines. */
  lemma FoundIsReplaced(content: string, section: Section, start: nat, at: nat, from: nat, upto: nat)
    requires Index(content, section.pair.begin) == start < Index(content, section.pair.end)
    requires at == Index(content, section.pair.end) + |section.pair.end| && at <= |content|
    requires LineStart(content, start) == from && LineEnd(content, at) == upto
    ensures Upsert(content, section) == Replaced(content, section.text, from, upto)
  {
  }

  lemma StartsItsLine(pre: string, rest: string)
    requires pre == "" || pre[|pre| - 1] == '\n'
    ensures LineStart(pre + rest, |pre|) == |pre|
  {
    assert (pre + rest)[..|pre|] == pre;
    AtChars(pre, |pre| - 1, "\n");
  }

  lemma EndsItsLine(pre: string, text: string, post: string, end: nat)
    requires end < |text| && Index(text[end..], "\n") == |text| - 1 - end
    ensures LineEnd(pre + text + post, |pre| + end) == |pre| + |text|
  {
    assert (pre + text + post)[|pre| + end..] == text[end..] + post;
    IndexIn(text[end..], post, "\n");
  }

  /** Contents a run can settle: no marker at all, or a begin ahead of every end. */
  predicate Settles(content: string, pair: MarkerPair) {
    var start, end := Index(content, pair.begin), Index(content, pair.end);
    (start == -1 && end == -1) || (start != -1 && end != -1 && start < end)
  }

  /** An end comes ahead of every begin: no run ever finds the section. */
  predicate Stray(content: string, pair: MarkerPair) {
    var start, end := Index(content, pair.begin), Index(content, pair.end);
    end != -1 && (start == -1 || end <= start)
  }

  /** pre and post are all of the file but the lines from the first begin's to the
      first end's; with no markers in it, the file and a blank line. */
  ghost predicate KeepsTheRest(content: string, section: Section, pre: string, post: string) {
    var start, end := Index(content, section.pair.begin), Index(content, section.pair.end);
    if start == -1 then post == "" && (pre == Line(content) + "\n" || (pre == "" && IsBlank(content)))
    else
      exists owned ::
        content == pre + owned + post && WholeLines(owned, start - |pre|, end + |section.pair.end| - |pre|)
  }

  /** owned is the lines that from and upto fall in, and no more. */
  predicate WholeLines(owned: string, from: int, upto: int) {
    0 <= from <= upto <= |owned| && '\n' !in owned[..from] &&
    forall k | upto <= k < |owned| - 1 :: owned[k] != '\n'
  }

  lemma LineStartIs(content: string, at: nat)
    requires at <= |content|
    ensures var s := LineStart(content, at);
      s <= at && '\n' !in content[s..at] && (s == 0 || content[s - 1] == '\n')
  {
    var newline := LastIndex(content[..at], "\n");
    forall k | newline < k < at ensures content[k] != '\n' {
      AtChars(content[..at], k, "\n");
    }
    if newline != -1 {
      AtChars(content[..at], newline, "\n");
    }
  }

  lemma LineEndIs(content: string, at: nat)
    requires at <= |content|
    ensures var s := LineEnd(content, at);
      at <= s <= |content| && (s == |content| || content[s - 1] == '\n') &&
        forall k | at <= k < s - 1 :: content[k] != '\n'
  {
    var newline := Index(content[at..], "\n");
    forall k | at <= k < LineEnd(content, at) - 1 ensures content[k] != '\n' {
      AtChars(content[at..], k - at, "\n");
    }
    if newline != -1 {
      AtChars(content[at..], newline, "\n");
    }
  }

  lemma PrefixHasNone(content: string, sub: string, cut: nat)
    requires cut <= |content| && (Index(content, sub) == -1 || cut <= Index(content, sub)) && sub != ""
    ensures Index(content[..cut], sub) == -1
  {
    var i := Index(content[..cut], sub);
    if i != -1 {
      assert content[i..i + |sub|] == content[..cut][i..i + |sub|];
      assert At(content, i, sub);
    }
  }

  lemma AppendsWhereNothingIs(content: string, section: Section) returns (pre: string)
    requires section.pair.SingleLine()
    requires Index(content, section.pair.begin) == -1 && Index(content, section.pair.end) == -1
    ensures Placed(Upsert(content, section).content, section, pre, "")
    ensures KeepsTheRest(content, section, pre, "")
  {
    LineHolds(content, section.pair.begin);
    LineHolds(content, section.pair.end);
    BlankTrimsAway(content);
    pre := if TrimSpace(content) == "" then "" else Line(content) + "\n";
    assert pre + section.text + "" == pre + section.text;
  }

  lemma OwnedLines(content: string, start: nat, at: nat)
    requires start <= at <= |content|
    ensures var from, upto := LineStart(content, start), LineEnd(content, at);
      from <= start && at <= upto <= |content| && content == content[..from] + content[from..upto] + content[upto..] &&
      WholeLines(content[from..upto], start - from, at - from)
  {
    LineStartIs(content, start);
    LineEndIs(content, at);
    var from, upto := LineStart(content, start), LineEnd(content, at);
    assert content[from..upto][..start - from] == content[from..start];
  }

  lemma ReplacesWhereItIs(content: string, section: Section) returns (pre: string, post: string)
    requires section.pair.SingleLine()
    requires 0 <= Index(content, section.pair.begin) < Index(content, section.pair.end)
    ensures Placed(Upsert(content, section).content, section, pre, post)
    ensures KeepsTheRest(content, section, pre, post)
  {
    var start, at := Index(content, section.pair.begin), Index(content, section.pair.end) + |section.pair.end|;
    var from, upto := LineStart(content, start), LineEnd(content, at);
    FoundIsReplaced(content, section, start, at, from, upto);
    pre, post := content[..from], content[upto..];
    ReplacedIsPlaced(content, section, from, upto);
    KeepsOtherLines(content, section, start, at);
  }

  lemma ReplacedIsPlaced(content: string, section: Section, from: nat, upto: nat)
    requires section.pair.SingleLine() && from <= |content| && upto <= |content|
    requires 0 <= Index(content, section.pair.begin) < Index(content, section.pair.end)
    requires from == LineStart(content, Index(content, section.pair.begin))
    ensures Placed(Replaced(content, section.text, from, upto).content, section, content[..from], content[upto..])
  {
    LineStartIs(content, Index(content, section.pair.begin));
    PrefixHasNone(content, section.pair.begin, from);
    PrefixHasNone(content, section.pair.end, from);
  }

  lemma KeepsOtherLines(content: string, section: Section, start: nat, at: nat)
    requires start == Index(content, section.pair.begin) && at == Index(content, section.pair.end) + |section.pair.end|
    requires start <= at <= |content|
    ensures KeepsTheRest(content, section, content[..LineStart(content, start)], content[LineEnd(content, at)..])
  {
    var from, upto := LineStart(content, start), LineEnd(content, at);
    OwnedLines(content, start, at);
    OwnsTheRest(content, section, start, at, content[..from], content[from..upto], content[upto..]);
  }

  lemma OwnsTheRest(content: string, section: Section, start: nat, at: nat, pre: string, owned: string, post: string)
    requires start == Index(content, section.pair.begin) && at == Index(content, section.pair.end) + |section.pair.end|
    requires content == pre + owned + post && WholeLines(owned, start - |pre|, at - |pre|)
    ensures KeepsTheRest(content, section, pre, post)
  {
  }

  /** A run over such a file puts the section where the first begin was, or after
      everything, and keeps every byte outside the lines it replaces. */
  lemma PlacesTheSection(content: string, section: Section) returns (pre: string, post: string)
    requires section.pair.SingleLine() && Settles(content, section.pair)
    ensures Placed(Upsert(content, section).content, section, pre, post)
    ensures KeepsTheRest(content, section, pre, post)
  {
    if Index(content, section.pair.begin) == -1 {
      post := "";
      pre := AppendsWhereNothingIs(content, section);
    } else {
      pre, post := ReplacesWhereItIs(content, section);
    }
  }

  lemma PlacedSettles(content: string, section: Section, pre: string, post: string)
    requires section.pair.SingleLine() && section.Converges() && Placed(content, section, pre, post)
    ensures Settles(content, section.pair)
  {
    PlacedIsFound(content, section, pre, post);
  }

  // ---- Runs ----

  /** A file's contents from run to run. */
  predicate IsHistory(history: seq<string>, section: Section) {
    forall i | 0 < i < |history| :: history[i] == Upsert(history[i - 1], section).content
  }

  /** A section appended to a file a run does not settle. */
  lemma Appends(content: string, section: Section)
    requires section.pair.SingleLine() && !Settles(content, section.pair)
    requires !IsBlank(section.pair.begin) && !IsBlank(section.pair.end)
    ensures Upsert(content, section).content == Line(content) + "\n" + section.text
  {
    var marker := if Index(content, section.pair.begin) != -1 then section.pair.begin else section.pair.end;
    var i := Index(content, marker);
    AtChars(content, i, marker);
    var k :| 0 <= k < |marker| && !IsSpace(marker[k]);
    assert content[i + k] == marker[k];
    BlankTrimsAway(content);
  }

  /** A begin with no end costs the user's lines behind it. The first run appends a
      section with its end, and the second replaces everything from the lone begin's
      line on; from then on the file stands still. */
  lemma LoneBeginSettlesLater(content: string, section: Section)
    requires section.pair.SingleLine() && section.Converges()
    requires !IsBlank(section.pair.begin) && !IsBlank(section.pair.end)
    requires Index(content, section.pair.begin) != -1 && Index(content, section.pair.end) == -1
    ensures var once := Upsert(content, section).content;
      once == Line(content) + "\n" + section.text && Settles(once, section.pair) &&
      Upsert(once, section).content ==
        content[..LineStart(content, Index(content, section.pair.begin))] + section.text &&
      |Upsert(once, section).content| < |once|
  {
    LoneBeginAppends(content, section);
    LoneBeginAbsorbs(content, section, Line(content) + "\n", Index(content, section.pair.begin));
  }

  lemma LoneBeginAbsorbs(content: string, section: Section, ahead: string, start: nat)
    requires section.Converges() && start < |content| && ahead == Line(content) + "\n"
    requires Index(ahead + section.text, section.pair.begin) == start
    requires Index(ahead + section.text, section.pair.end) == |ahead| + Index(section.text, section.pair.end)
    ensures Upsert(ahead + section.text, section).content == content[..LineStart(content, start)] + section.text
  {
    Absorbs(ahead, section, start);
    StartsAhead(content, ahead, start);
  }

  lemma StartsAhead(content: string, ahead: string, start: nat)
    requires start < |content| && ahead == Line(content) + "\n"
    ensures start < |ahead| && LineStart(ahead, start) == LineStart(content, start)
    ensures ahead[..LineStart(ahead, start)] == content[..LineStart(content, start)]
  {
    assert ahead[..start] == content[..start];
    SameLineStart(ahead, content, start);
  }

  lemma LoneBeginAppends(content: string, section: Section)
    requires section.pair.SingleLine() && section.Converges()
    requires !IsBlank(section.pair.begin) && !IsBlank(section.pair.end)
    requires Index(content, section.pair.begin) != -1 && Index(content, section.pair.end) == -1
    ensures var ahead := Line(content) + "\n"; var once := ahead + section.text;
      Upsert(content, section).content == once && Settles(once, section.pair) &&
      Index(once, section.pair.begin) == Index(content, section.pair.begin) &&
      Index(once, section.pair.end) == |ahead| + Index(section.text, section.pair.end)
  {
    var ahead := Line(content) + "\n";
    Appends(content, section);
    LineHolds(content, section.pair.begin);
    LineHolds(content, section.pair.end);
    IndexIn(ahead, section.text, section.pair.begin);
    IndexIn(ahead, section.text, section.pair.end);
  }

  /** Where a line starts depends on what is ahead of it alone. */
  lemma SameLineStart(longer: string, content: string, at: nat)
    requires at <= |content| && at <= |longer| && longer[..at] == content[..at]
    ensures LineStart(longer, at) == LineStart(content, at)
    ensures longer[..LineStart(content, at)] == content[..LineStart(content, at)]
  {
    assert longer[..LineStart(content, at)] == longer[..at][..LineStart(content, at)];
    assert content[..LineStart(content, at)] == content[..at][..LineStart(content, at)];
  }

  lemma EndsTheFile(ahead: string, text: string, end: nat)
    requires end < |text| && Index(text[end..], "\n") == |text| - 1 - end
    ensures LineEnd(ahead + text, |ahead| + end) == |ahead| + |text|
  {
    assert ahead + text + "" == ahead + text;
    EndsItsLine(ahead, text, "", end);
  }

  lemma ReplacedTail(ahead: string, text: string, from: nat)
    requires from <= |ahead|
    ensures Replaced(ahead + text, text, from, |ahead + text|).content == ahead[..from] + text
  {
    assert (ahead + text)[|ahead + text|..] == "" && (ahead + text)[..from] == ahead[..from];
  }

  /** The lines from a begin ahead of the section to the section's own last line go
      with it. */
  lemma Absorbs(ahead: string, section: Section, start: nat)
    requires section.Converges() && start < |ahead|
    requires Index(ahead + section.text, section.pair.begin) == start
    requires Index(ahead + section.text, section.pair.end) == |ahead| + Index(section.text, section.pair.end)
    ensures Upsert(ahead + section.text, section).content == ahead[..LineStart(ahead, start)] + section.text
  {
    var once, end := ahead + section.text, Index(section.text, section.pair.end) + |section.pair.end|;
    EndsTheFile(ahead, section.text, end);
    SameLineStart(once, ahead, start);
    FoundIsReplaced(once, section, start, |ahead| + end, LineStart(ahead, start), |once|);
    ReplacedTail(ahead, section.text, LineStart(ahead, start));
  }

  lemma StrayStaysStray(content: string, section: Section)
    requires section.pair.SingleLine() && !IsBlank(section.pair.begin) && !IsBlank(section.pair.end)
    requires Stray(content, section.pair)
    ensures var updated := Upsert(content, section).content;
      Stray(updated, section.pair) && |updated| >= |content| + |section.text| + 1
  {
    Appends(content, section);
    var ahead := Line(content) + "\n";
    LineHolds(content, section.pair.begin);
    LineHolds(content, section.pair.end);
    IndexIn(ahead, section.text, section.pair.begin);
    IndexIn(ahead, section.text, section.pair.end);
  }

  lemma {:induction false} StrayEveryRun(history: seq<string>, section: Section, n: nat)
    requires section.pair.SingleLine() && !IsBlank(section.pair.begin) && !IsBlank(section.pair.end)
    requires IsHistory(history, section) && n < |history| && Stray(history[0], section.pair)
    ensures Stray(history[n], section.pair)
  {
    if n > 0 {
      StrayEveryRun(history, section, n - 1);
      StrayStaysStray(history[n - 1], section);
    }
  }

  lemma {:induction false} Accumulates(history: seq<string>, step: nat, n: nat)
    requires n < |history| && forall i | 0 < i < |history| :: |history[i]| >= |history[i - 1]| + step
    ensures |history[n]| >= |history[0]| + n * step
  {
    if n > 0 {
      Accumulates(history, step, n - 1);
      assert n * step == (n - 1) * step + step;
    }
  }

  /** Behind a stray end every run adds another section. */
  lemma StrayGrowsForever(history: seq<string>, section: Section, n: nat)
    requires section.pair.SingleLine() && !IsBlank(section.pair.begin) && !IsBlank(section.pair.end)
    requires IsHistory(history, section) && n < |history| && Stray(history[0], section.pair)
    ensures |history[n]| >= |history[0]| + n * (|section.text| + 1)
  {
    forall i | 0 < i < |history| ensures |history[i]| >= |history[i - 1]| + (|section.text| + 1) {
      StrayEveryRun(history, section, i - 1);
      StrayStaysStray(history[i - 1], section);
    }
    Accumulates(history, |section.text| + 1, n);
  }

  lemma SettledTwice(content: string, section: Section)
    requires section.pair.SingleLine() && section.Converges() && Settles(content, section.pair)
    ensures var once := Upsert(content, section).content;
      Upsert(once, section) == Update(once, false) && Settles(once, section.pair)
  {
    var pre, post := PlacesTheSection(content, section);
    PlacedStays(Upsert(content, section).content, section, pre, post);
    PlacedSettles(Upsert(content, section).content, section, pre, post);
  }

  /** One run is as good as two exactly when the markers settle; two are as good as
      any number exactly when no end is stray. */
  lemma IdempotentExactlyWhen(content: string, section: Section)
    requires section.pair.SingleLine() && section.Converges()
    requires !IsBlank(section.pair.begin) && !IsBlank(section.pair.end)
    ensures var once := Upsert(content, section).content; var twice := Upsert(once, section).content;
      (Upsert(once, section) == Update(once, false) <==> Settles(content, section.pair)) &&
      (Upsert(twice, section) == Update(twice, false) <==> !Stray(content, section.pair))
  {
    var once := Upsert(content, section).content;
    if Stray(content, section.pair) {
      StrayStaysStray(content, section);
      StrayStaysStray(once, section);
      StrayStaysStray(Upsert(once, section).content, section);
    } else if Settles(content, section.pair) {
      SettledTwice(content, section);
    } else {
      LoneBeginSettlesLater(content, section);
      SettledTwice(once, section);
    }
  }
}
