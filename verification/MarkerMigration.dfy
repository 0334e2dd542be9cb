// internal/cli/managed_sections.go: files whose section carries an older pair of
// markers, migrated ahead of every rewrite.
module MarkerMigration {
  import opened Search
  import opened Text
  import opened ManagedSections

  /** strings.ReplaceAll of a non-empty old: occurrences that do not overlap, from the
      left. */
  function ReplaceAll(s: string, old': string, new': string): string
    requires old' != ""
    decreases |s|
  {
    var i := Index(s, old');
    if i == -1 then s else s[..i] + new' + ReplaceAll(s[i + |old'|..], old', new')
  }

  function Migrate(content: string, legacy: MarkerPair, current: MarkerPair): string
    requires legacy.begin != "" && legacy.end != ""
  {
    ReplaceAll(ReplaceAll(content, legacy.begin, current.begin), legacy.end, current.end)
  }

  // ---- Markers that cannot overlap ----

  /** The marker begins with head and has it nowhere else, as a comment does. */
  predicate Headed(marker: string, head: char) { marker != "" && marker[0] == head && head !in marker[1..] }

  predicate Unlike(a: string, b: string) { !At(a, 0, b) && !At(b, 0, a) }

  /** Two pairs, no marker of which begins another. */
  predicate Told(legacy: MarkerPair, current: MarkerPair, head: char) {
    && Headed(legacy.begin, head) && Headed(legacy.end, head) && Headed(current.begin, head) &&
      Headed(current.end, head)
    && Unlike(legacy.begin, legacy.end) && Unlike(legacy.begin, current.begin) && Unlike(legacy.begin, current.end)
    && Unlike(legacy.end, current.begin) && Unlike(legacy.end, current.end) && Unlike(current.begin, current.end)
  }

  lemma HeadOnlyFirst(marker: string, head: char, k: nat)
    requires Headed(marker, head) && 0 < k < |marker|
    ensures marker[k] != head
  {
    assert marker[k] == marker[1..][k - 1];
  }

  lemma NotTogether(s: string, i: int, a: string, b: string)
    requires Unlike(a, b)
    ensures !(At(s, i, a) && At(s, i, b))
  {
    BeginsTheLonger(s, i, a, b);
    BeginsTheLonger(s, i, b, a);
  }

  lemma BeginsTheLonger(s: string, i: int, a: string, b: string)
    ensures At(s, i, a) && At(s, i, b) && |a| <= |b| ==> At(b, 0, a)
  {
    if At(s, i, a) && At(s, i, b) && |a| <= |b| {
      assert b[0..|a|] == s[i..i + |b|][..|a|] == s[i..i + |a|];
    }
  }

  /** Around a marker in the middle, another marker occurs ahead of it, behind it, or
      not at all. */
  lemma AroundMarker(ahead: string, mid: string, rest: string, m: string, head: char, j: nat)
    requires Headed(mid, head) && Headed(m, head) && (m == mid || Unlike(m, mid))
    ensures At(ahead + mid + rest, j, m) <==>
      if j < |ahead| then At(ahead, j, m)
      else if j == |ahead| then m == mid
      else j >= |ahead| + |mid| && At(rest, j - |ahead| - |mid|, m)
  {
    var whole := ahead + mid + rest;
    assert whole[|ahead|..|ahead| + |mid|] == mid;
    if j < |ahead| {
      AheadOfMarker(ahead, mid + rest, m, head, j);
      assert whole == ahead + (mid + rest);
    } else if j == |ahead| {
      if m != mid {
        NotTogether(whole, j, m, mid);
      }
    } else if j < |ahead| + |mid| {
      HeadOnlyFirst(mid, head, j - |ahead|);
      assert whole[j] == mid[j - |ahead|];
      NotHeaded(whole, m, head, j);
    } else if j + |m| <= |whole| {
      assert whole[j..j + |m|] == rest[j - |ahead| - |mid|..j - |ahead| - |mid| + |m|];
    }
  }

  lemma NotHeaded(s: string, m: string, head: char, j: nat)
    requires Headed(m, head) && j < |s| && s[j] != head
    ensures !At(s, j, m)
  {
    Differs(s, m, j, 0);
  }

  lemma AheadOfMarker(ahead: string, rest: string, m: string, head: char, j: nat)
    requires Headed(m, head) && j < |ahead| && rest != "" && rest[0] == head
    ensures At(ahead + rest, j, m) <==> At(ahead, j, m)
  {
    var whole := ahead + rest;
    if j + |m| <= |ahead| {
      assert whole[j..j + |m|] == ahead[j..j + |m|];
    } else {
      var k := |ahead| - j;
      HeadOnlyFirst(m, head, k);
      assert whole[j + k] == head;
      Differs(whole, m, j, k);
    }
  }

  /** Where a marker first occurs around another. */
  lemma FirstAround(ahead: string, mid: string, rest: string, m: string, head: char)
    requires Headed(mid, head) && Headed(m, head) && (m == mid || Unlike(m, mid))
    ensures Index(ahead + mid + rest, m) ==
      if Index(ahead, m) != -1 then Index(ahead, m)
      else if m == mid then |ahead|
      else if Index(rest, m) != -1 then |ahead| + |mid| + Index(rest, m)
      else -1
  {
    var i, j, k := Index(ahead, m), Index(rest, m), Index(ahead + mid + rest, m);
    if i != -1 {
      AroundMarker(ahead, mid, rest, m, head, i);
    }
    AroundMarker(ahead, mid, rest, m, head, |ahead|);
    if j != -1 {
      AroundMarker(ahead, mid, rest, m, head, |ahead| + |mid| + j);
    }
    if k != -1 {
      AroundMarker(ahead, mid, rest, m, head, k);
    }
  }

  // ---- One replacement ----

  function First(a: int, b: int): int { if a == -1 then b else if b == -1 || a < b then a else b }

  /** The first occurrence cuts a string in three. */
  lemma CutAtFirst(s: string, marker: string) returns (ahead: string, rest: string)
    requires marker != "" && Index(s, marker) != -1
    ensures s == ahead + marker + rest && |ahead| == Index(s, marker) && Index(ahead, marker) == -1
    ensures ahead == s[..Index(s, marker)] && rest == s[Index(s, marker) + |marker|..]
  {
    var i := Index(s, marker);
    ahead, rest := s[..i], s[i + |marker|..];
    assert s == s[..i] + s[i..i + |marker|] + s[i + |marker|..];
    PrefixHasNone(s, marker, i);
  }

  /** Every occurrence is replaced where it stands, and all around it is kept; what holds
      none is left as it is. */
  lemma ReplacesInPlace(ahead: string, rest: string, old': string, new': string, head: char)
    requires Headed(old', head) && Index(ahead, old') == -1
    ensures ReplaceAll(ahead, old', new') == ahead
    ensures ReplaceAll(ahead + old' + rest, old', new') == ahead + new' + ReplaceAll(rest, old', new')
  {
    FirstAround(ahead, old', rest, old', head);
    AroundCut(ahead, old', rest);
  }

  lemma AroundCut(ahead: string, mid: string, rest: string)
    ensures (ahead + mid + rest)[..|ahead|] == ahead && (ahead + mid + rest)[|ahead| + |mid|..] == rest
  {
  }

  /** No old marker is left, and a marker neither old nor new stands as it stood. */
  lemma {:induction false} ReplacedHas(s: string, old': string, new': string, m: string, head: char)
    requires Headed(old', head) && Headed(new', head) && Unlike(old', new') && Headed(m, head)
    requires m == old' || (Unlike(m, old') && Unlike(m, new'))
    ensures Index(ReplaceAll(s, old', new'), m) == -1 <==> m == old' || Index(s, m) == -1
    decreases |s|
  {
    if Index(s, old') != -1 {
      var ahead, rest := CutAtFirst(s, old');
      ReplacedHas(rest, old', new', m, head);
      FirstAround(ahead, new', ReplaceAll(rest, old', new'), m, head);
      FirstAround(ahead, old', rest, m, head);
    }
  }

  /** The new marker comes first where the first of either came, relative to any marker
      that is neither. */
  lemma ReplacedOrder(s: string, old': string, new': string, m: string, head: char)
    requires Headed(old', head) && Headed(new', head) && Unlike(old', new')
    requires Headed(m, head) && Unlike(m, old') && Unlike(m, new')
    ensures var r := ReplaceAll(s, old', new'); var was := First(Index(s, old'), Index(s, new'));
      (Index(r, new') == -1 <==> was == -1) && (Index(r, m) == -1 <==> Index(s, m) == -1) &&
      (was != -1 && Index(s, m) != -1 ==> (Index(r, new') < Index(r, m) <==> was < Index(s, m)))
  {
    ReplacedHas(s, old', new', m, head);
    if Index(s, old') != -1 {
      var ahead, rest := CutAtFirst(s, old');
      FirstAround(ahead, new', ReplaceAll(rest, old', new'), new', head);
      FirstAround(ahead, new', ReplaceAll(rest, old', new'), m, head);
      FirstAround(ahead, old', rest, new', head);
      FirstAround(ahead, old', rest, m, head);
    }
  }

  // ---- A migrated file ----

  function FirstBegin(content: string, legacy: MarkerPair, current: MarkerPair): int {
    First(Index(content, legacy.begin), Index(content, current.begin))
  }

  function FirstEnd(content: string, legacy: MarkerPair, current: MarkerPair): int {
    First(Index(content, legacy.end), Index(content, current.end))
  }

  /** No marker of either pair, or a begin of either ahead of every end of either. */
  predicate EitherSettles(content: string, legacy: MarkerPair, current: MarkerPair) {
    var start, end := FirstBegin(content, legacy, current), FirstEnd(content, legacy, current);
    (start == -1 && end == -1) || (start != -1 && end != -1 && start < end)
  }

  /** An end of either pair ahead of every begin of either. */
  predicate EitherStray(content: string, legacy: MarkerPair, current: MarkerPair) {
    var start, end := FirstBegin(content, legacy, current), FirstEnd(content, legacy, current);
    end != -1 && (start == -1 || end < start)
  }

  lemma MigrationLeavesNoLegacy(content: string, legacy: MarkerPair, current: MarkerPair, head: char)
    requires Told(legacy, current, head)
    ensures var m := Migrate(content, legacy, current); Index(m, legacy.begin) == -1 && Index(m, legacy.end) == -1
  {
    var half := ReplaceAll(content, legacy.begin, current.begin);
    ReplacedHas(content, legacy.begin, current.begin, legacy.begin, head);
    ReplacedHas(half, legacy.end, current.end, legacy.begin, head);
    ReplacedHas(half, legacy.end, current.end, legacy.end, head);
  }

  lemma FirstsDiffer(s: string, a: string, b: string)
    requires Unlike(a, b) && Index(s, a) != -1
    ensures Index(s, a) != Index(s, b)
  {
    NotTogether(s, Index(s, a), a, b);
  }

  lemma HalfMigrated(content: string, legacy: MarkerPair, current: MarkerPair, head: char)
    requires Told(legacy, current, head)
    ensures var half := ReplaceAll(content, legacy.begin, current.begin);
      var start, end := Index(half, current.begin), First(Index(half, legacy.end), Index(half, current.end));
      var start', end' := FirstBegin(content, legacy, current), FirstEnd(content, legacy, current);
      (start == -1 <==> start' == -1) && (end == -1 <==> end' == -1) &&
      (start != -1 && end != -1 ==> (start < end <==> start' < end'))
  {
    ReplacedOrder(content, legacy.begin, current.begin, legacy.end, head);
    ReplacedOrder(content, legacy.begin, current.begin, current.end, head);
  }

  /** A file migrates into one a run can settle, or one no run ever will, exactly as its
      markers stand with the two spellings taken as one: a pair that is half legacy is
      as good as a whole one. */
  lemma MigratesAsEither(content: string, legacy: MarkerPair, current: MarkerPair, head: char)
    requires Told(legacy, current, head)
    ensures Settles(Migrate(content, legacy, current), current) <==> EitherSettles(content, legacy, current)
    ensures Stray(Migrate(content, legacy, current), current) <==> EitherStray(content, legacy, current)
  {
    var half, whole := ReplaceAll(content, legacy.begin, current.begin), Migrate(content, legacy, current);
    HalfMigrated(content, legacy, current, head);
    ReplacedOrder(half, legacy.end, current.end, current.begin, head);
    ReplacedHas(content, legacy.begin, current.begin, legacy.begin, head);
    EitherDiffers(content, legacy, current);
    EitherDiffers(half, legacy, current);
    if Index(whole, current.begin) != -1 {
      FirstsDiffer(whole, current.begin, current.end);
    }
    OrderCarries(
      FirstBegin(content, legacy, current), FirstEnd(content, legacy, current),
      Index(half, current.begin), FirstEnd(half, legacy, current),
      Index(whole, current.begin), Index(whole, current.end));
  }

  /** Which of two comes first, carried through two steps. */
  lemma OrderCarries(a: int, b: int, a': int, b': int, a'': int, b'': int)
    requires (a == -1 <==> a' == -1) && (b == -1 <==> b' == -1)
    requires (a' == -1 <==> a'' == -1) && (b' == -1 <==> b'' == -1)
    requires a != -1 && b != -1 ==> (a' < b' <==> a < b) && (b'' < a'' <==> b' < a')
    requires a != -1 ==> a != b && a' != b' && a'' != b''
    ensures a != -1 && b != -1 ==> (a'' < b'' <==> a < b)
    ensures (a == -1 <==> a'' == -1) && (b == -1 <==> b'' == -1)
  {
  }

  lemma EitherDiffers(content: string, legacy: MarkerPair, current: MarkerPair)
    requires Unlike(legacy.begin, legacy.end) && Unlike(legacy.begin, current.end)
    requires Unlike(current.begin, legacy.end) && Unlike(current.begin, current.end)
    ensures var start, end := FirstBegin(content, legacy, current), FirstEnd(content, legacy, current);
      start != -1 ==> start != end
  {
    var start := FirstBegin(content, legacy, current);
    NotTogether(content, start, legacy.begin, legacy.end);
    NotTogether(content, start, legacy.begin, current.end);
    NotTogether(content, start, current.begin, legacy.end);
    NotTogether(content, start, current.begin, current.end);
  }

  // ---- Runs over files that may be legacy ----

  function Run(content: string, legacy: MarkerPair, section: Section): Update
    requires legacy.begin != "" && legacy.end != ""
  {
    Upsert(Migrate(content, legacy, section.pair), section)
  }

  lemma SuffixHasNone(content: string, sub: string, cut: nat)
    requires cut <= |content| && Index(content, sub) == -1
    ensures Index(content[cut..], sub) == -1
  {
    var i := Index(content[cut..], sub);
    if i != -1 {
      assert content[cut + i..cut + i + |sub|] == content[cut..][i..i + |sub|];
      assert At(content, cut + i, sub);
    }
  }

  lemma ThreeHaveNone(pre: string, text: string, post: string, sub: string)
    requires sub != "" && '\n' !in sub && (pre == "" || pre[|pre| - 1] == '\n') && text != "" &&
      text[|text| - 1] == '\n'
    requires Index(pre, sub) == -1 && Index(text, sub) == -1 && Index(post, sub) == -1
    ensures Index(pre + text + post, sub) == -1
  {
    IndexIn(pre, text + post, sub);
    IndexIn(text, post, sub);
    assert pre + text + post == pre + (text + post);
  }

  /** A run puts no marker in a file but the section's own. */
  lemma UpsertAddsNone(content: string, section: Section, sub: string)
    requires sub != "" && '\n' !in sub && section.text != "" && section.text[|section.text| - 1] == '\n'
    requires Index(content, sub) == -1 && Index(section.text, sub) == -1
    ensures Index(Upsert(content, section).content, sub) == -1
  {
    var start, at := UpsertIsEither(content, section);
    EitherAddsNone(content, section.text, Upsert(content, section), start, at, sub);
  }

  /** What a run does, and where. */
  predicate Either(content: string, text: string, update: Update, start: int, at: nat) {
    && (start < 0 ==> update == Appended(content, text))
    && (start >= 0 ==>
      start <= |content| && at <= |content| &&
      update == Replaced(content, text, LineStart(content, start), LineEnd(content, at)))
  }

  lemma UpsertIsEither(content: string, section: Section) returns (start: int, at: nat)
    ensures Either(content, section.text, Upsert(content, section), start, at)
  {
    start, at := UpsertAtIsEither(
      content, section.text, Index(content, section.pair.begin), Index(content, section.pair.end), |section.pair.end|);
  }

  lemma UpsertAtIsEither(content: string, text: string, begin: int, end: int, marker: nat)
    returns (start: int, at: nat)
    requires begin == -1 || 0 <= begin <= |content|
    requires end == -1 || 0 <= end <= |content| - marker
    ensures Either(content, text, UpsertAt(content, text, begin, end, marker), start, at)
  {
    start, at := -1, 0;
    if begin != -1 && end != -1 && begin < end {
      start, at := begin, end + marker;
    }
  }

  lemma EitherAddsNone(content: string, text: string, update: Update, start: int, at: nat, sub: string)
    requires Either(content, text, update, start, at)
    requires sub != "" && '\n' !in sub && text != "" && text[|text| - 1] == '\n'
    requires Index(content, sub) == -1 && Index(text, sub) == -1
    ensures Index(update.content, sub) == -1
  {
    if start < 0 {
      AppendedAddsNone(content, text, sub);
    } else {
      ReplacedAddsNone(content, text, start, at, sub);
    }
  }

  lemma ReplacedAddsNone(content: string, text: string, start: nat, at: nat, sub: string)
    requires start <= |content| && at <= |content| && sub != "" && '\n' !in sub && text != "" &&
      text[|text| - 1] == '\n'
    requires Index(content, sub) == -1 && Index(text, sub) == -1
    ensures Index(Replaced(content, text, LineStart(content, start), LineEnd(content, at)).content, sub) == -1
  {
    var from, upto := LineStart(content, start), LineEnd(content, at);
    LineStartIs(content, start);
    PrefixHasNone(content, sub, from);
    SuffixHasNone(content, sub, upto);
    ThreeHaveNone(content[..from], text, content[upto..], sub);
  }

  lemma AppendedAddsNone(content: string, text: string, sub: string)
    requires sub != "" && '\n' !in sub && Index(content, sub) == -1 && Index(text, sub) == -1
    ensures Index(Appended(content, text).content, sub) == -1
  {
    LineHolds(content, sub);
    IndexIn(Line(content) + "\n", text, sub);
  }

  /** After one run there is nothing left to migrate. */
  lemma MigratedOnce(content: string, legacy: MarkerPair, section: Section, head: char)
    requires Told(legacy, section.pair, head) && legacy.SingleLine() && section.Converges()
    requires Index(section.text, legacy.begin) == -1 && Index(section.text, legacy.end) == -1
    ensures var once := Run(content, legacy, section).content; Migrate(once, legacy, section.pair) == once
  {
    var migrated := Migrate(content, legacy, section.pair);
    MigrationLeavesNoLegacy(content, legacy, section.pair, head);
    UpsertAddsNone(migrated, section, legacy.begin);
    UpsertAddsNone(migrated, section, legacy.end);
  }

  /** One run is as good as two exactly when the file's markers, the two spellings taken
      as one, settle. */
  lemma MigratedIdempotentExactlyWhen(content: string, legacy: MarkerPair, section: Section, head: char)
    requires Told(legacy, section.pair, head) && legacy.SingleLine()
    requires section.pair.SingleLine() && section.Converges()
    requires !IsBlank(section.pair.begin) && !IsBlank(section.pair.end)
    requires Index(section.text, legacy.begin) == -1 && Index(section.text, legacy.end) == -1
    ensures var once := Run(content, legacy, section).content; var twice := Run(once, legacy, section).content;
      (Run(once, legacy, section) == Update(once, false) <==> EitherSettles(content, legacy, section.pair)) &&
      (Run(twice, legacy, section) == Update(twice, false) <==> !EitherStray(content, legacy, section.pair))
  {
    MigratedOnce(content, legacy, section, head);
    MigratedOnce(Run(content, legacy, section).content, legacy, section, head);
    MigratesAsEither(content, legacy, section.pair, head);
    IdempotentExactlyWhen(Migrate(content, legacy, section.pair), section);
  }

  lemma LaterRunsMigrateNothing(content: string, legacy: MarkerPair, section: Section, head: char)
    requires Told(legacy, section.pair, head) && legacy.SingleLine() && section.Converges()
    requires Index(section.text, legacy.begin) == -1 && Index(section.text, legacy.end) == -1
    ensures var once := Run(content, legacy, section).content; Run(once, legacy, section) == Upsert(once, section)
  {
    MigratedOnce(content, legacy, section, head);
  }

  /** A file with an end ahead of every begin, legacy or not, never converges: every run
      adds a section. */
  lemma StrayEndGrowsForever(history: seq<string>, legacy: MarkerPair, section: Section, head: char, n: nat)
    requires Told(legacy, section.pair, head) && legacy.SingleLine()
    requires section.pair.SingleLine() && section.Converges()
    requires !IsBlank(section.pair.begin) && !IsBlank(section.pair.end)
    requires Index(section.text, legacy.begin) == -1 && Index(section.text, legacy.end) == -1
    requires n < |history| && EitherStray(history[0], legacy, section.pair)
    requires forall i | 0 < i < |history| :: history[i] == Run(history[i - 1], legacy, section).content
    ensures n > 0 ==> |history[n]| >= |Migrate(history[0], legacy, section.pair)| + n * (|section.text| + 1)
  {
    var migrated := Migrate(history[0], legacy, section.pair);
    forall i | 1 < i < |history| ensures history[i] == Upsert(history[i - 1], section).content {
      assert history[i - 1] == Run(history[i - 2], legacy, section).content;
      LaterRunsMigrateNothing(history[i - 2], legacy, section, head);
    }
    MigratesAsEither(history[0], legacy, section.pair, head);
    GrowsFrom(history, migrated, section, n);
  }

  lemma GrowsFrom(history: seq<string>, migrated: string, section: Section, n: nat)
    requires section.pair.SingleLine() && section.Converges()
    requires !IsBlank(section.pair.begin) && !IsBlank(section.pair.end)
    requires n < |history| && Stray(migrated, section.pair)
    requires |history| > 1 ==> history[1] == Upsert(migrated, section).content
    requires forall i | 1 < i < |history| :: history[i] == Upsert(history[i - 1], section).content
    ensures n > 0 ==> |history[n]| >= |migrated| + n * (|section.text| + 1)
  {
    StrayGrowsForever(history[0 := migrated], section, n);
  }

  // ---- The hooks' own pairs ----

  lemma DifferAt(a: string, b: string, k: nat)
    requires k < |a| && k < |b| && a[k] != b[k]
    ensures Unlike(a, b)
  {
    Differs(a, b, 0, k);
    Differs(b, a, 0, k);
  }

  lemma HookPairsAreTold(legacy: MarkerPair, current: MarkerPair)
    requires legacy == MarkerPair("# --- BEGIN LINKS INTEGRATION ---", "# --- END LINKS INTEGRATION ---")
    requires current == MarkerPair("# --- BEGIN LIT INTEGRATION ---", "# --- END LIT INTEGRATION ---")
    ensures Told(legacy, current, '#')
  {
    HeadedHooks(legacy);
    HeadedHooks(current);
    HooksDiffer(legacy, current);
    DifferAt(legacy.begin, legacy.end, 6);
    DifferAt(legacy.begin, current.begin, 14);
    DifferAt(legacy.begin, current.end, 6);
    DifferAt(legacy.end, current.begin, 6);
    DifferAt(legacy.end, current.end, 12);
    DifferAt(current.begin, current.end, 6);
  }

  lemma HooksDiffer(legacy: MarkerPair, current: MarkerPair)
    requires legacy == MarkerPair("# --- BEGIN LINKS INTEGRATION ---", "# --- END LINKS INTEGRATION ---")
    requires current == MarkerPair("# --- BEGIN LIT INTEGRATION ---", "# --- END LIT INTEGRATION ---")
    ensures |legacy.begin| > 14 && |legacy.end| > 14 && |current.begin| > 14 && |current.end| > 14
    ensures legacy.begin[6] == current.begin[6] == 'B' && legacy.end[6] == current.end[6] == 'E'
    ensures legacy.begin[14] == legacy.end[12] == 'N' && current.begin[14] == current.end[12] == 'T'
  {
  }

  lemma HeadedHooks(pair: MarkerPair)
    requires HookMarkers(pair)
    ensures Headed(pair.begin, '#') && Headed(pair.end, '#')
  {
    if pair.begin == "# --- BEGIN LIT INTEGRATION ---" {
      HeadedLit(pair.begin, pair.end);
    } else {
      HeadedLinks(pair.begin, pair.end);
    }
  }

  lemma HeadedLit(begin: string, end: string)
    requires begin == "# --- BEGIN LIT INTEGRATION ---" && end == "# --- END LIT INTEGRATION ---"
    ensures Headed(begin, '#') && Headed(end, '#')
  {
    LitBeginTail(begin[1..]);
    LitEndTail(end[1..]);
  }

  lemma HeadedLinks(begin: string, end: string)
    requires begin == "# --- BEGIN LINKS INTEGRATION ---" && end == "# --- END LINKS INTEGRATION ---"
    ensures Headed(begin, '#') && Headed(end, '#')
  {
    LinksBeginTail(begin[1..]);
    LinksEndTail(end[1..]);
  }

  lemma LitBeginTail(tail: string)
    requires tail == " --- BEGIN LIT INTEGRATION ---"
    ensures '#' !in tail
  {
  }

  lemma LitEndTail(tail: string)
    requires tail == " --- END LIT INTEGRATION ---"
    ensures '#' !in tail
  {
  }

  lemma LinksBeginTail(tail: string)
    requires tail == " --- BEGIN LINKS INTEGRATION ---"
    ensures '#' !in tail
  {
  }

  lemma LinksEndTail(tail: string)
    requires tail == " --- END LINKS INTEGRATION ---"
    ensures '#' !in tail
  {
  }
}
