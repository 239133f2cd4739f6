/** The TypeScript `GitHistoryAnalyzer` (src/lib/git-analyzer.ts): it finds
    repositories under a directory by name pattern, collects their commits
    from `git log`, groups the commits by calendar day and writes one
    summary note per day.

    The outside world comes in as parameters: the directory listing (or its
    absence), and the result of `git log` for each repository path. Its
    fields are fixed at construction, so the analyzer is a value and its
    operations are module-level members that take it. */
module TsGitAnalyzer {
  import opened Wrappers
  import opened Text
  import opened Seqs

  /** A commit as the analyzer reports it. */
  datatype Commit = Commit(hash: string, date: string, message: string, author: string, repository: string)

  /** One entry of `git log` as the git library returns it. */
  datatype LogEntry = LogEntry(hash: string, date: string, message: string, authorName: string)

  /** The note for one day. `firstCommit` and `lastCommit` are `undefined`
      in the source when the day's list is empty, hence the `Option`. */
  datatype DailyNote = DailyNote(date: string, note: string, commitCount: nat,
                                 firstCommit: Option<string>, lastCommit: Option<string>)

  datatype Metadata = Metadata(startDate: string, endDate: string, reposDir: string,
                               repositoryCount: nat, totalCommits: nat)

  datatype AnalysisResult = AnalysisResult(metadata: Metadata, dailyNotes: seq<DailyNote>, commits: seq<Commit>)

  /** One directory entry: its name, whether it is a directory, and whether
      `<entry>/.git` exists. */
  datatype DirEntry = DirEntry(name: string, isDirectory: bool, hasGitDir: bool)

  /** The constructor's options; every one of them may be absent. */
  datatype Options = Options(startDate: Option<string>, endDate: Option<string>, reposDir: Option<string>,
                             output: Option<string>, discover: Option<bool>)

  /** The analyzer's fields; `repoPatterns` is the read-only list of
      repository names it looks for. */
  datatype Analyzer = Analyzer(startDate: string, endDate: string, reposDir: string, output: string, discover: bool,
                               repoPatterns: seq<string>)

  const DefaultStartDate := "2025-09-30"
  const DefaultEndDate := "2025-10-09"
  const DefaultReposDir := "/Users/ebowwa/apps"
  const DefaultOutput := "git_analysis.json"

  /** The repository names every analyzer looks for. */
  const RepoPatterns: seq<string> := ["openhardwareai", "app-store-connect-wrapper", "CleanShot", "speakd", "node-starter"]

  // ---------------------------------------------------------------------------
  // Construction

  /** JavaScript's `o || d` on an optional string: an absent or empty string
      falls through to `d`. */
  function OrElse(o: Option<string>, d: string): (r: string)
    ensures d != "" ==> r != ""
    ensures r == d || (o == Some(r) && r != "")
    ensures (o.Some? && o.value != "") ==> r == o.value
  {
    if o.Some? && o.value != "" then o.value else d
  }

  /** A string option JavaScript treats as truthy: present and non-empty. */
  predicate Given(o: Option<string>) {
    o.Some? && o.value != ""
  }

  /** The constructor. `envReposDir` is the `REPOS_DIR` environment variable. */
  function NewAnalyzer(options: Options, envReposDir: Option<string>): (a: Analyzer)
    ensures a.startDate != "" && a.endDate != "" && a.reposDir != "" && a.output != ""
    ensures Given(options.startDate) ==> a.startDate == options.startDate.value
    ensures !Given(options.startDate) ==> a.startDate == DefaultStartDate
    ensures Given(options.endDate) ==> a.endDate == options.endDate.value
    ensures !Given(options.endDate) ==> a.endDate == DefaultEndDate
    ensures Given(options.reposDir) ==> a.reposDir == options.reposDir.value
    ensures !Given(options.reposDir) && Given(envReposDir) ==> a.reposDir == envReposDir.value
    ensures !Given(options.reposDir) && !Given(envReposDir) ==> a.reposDir == DefaultReposDir
    ensures Given(options.output) ==> a.output == options.output.value
    ensures !Given(options.output) ==> a.output == DefaultOutput
    ensures a.discover <==> options.discover == Some(true)
    ensures a.repoPatterns == RepoPatterns
  {
    Analyzer(OrElse(options.startDate, DefaultStartDate),
             OrElse(options.endDate, DefaultEndDate),
             OrElse(options.reposDir, OrElse(envReposDir, DefaultReposDir)),
             OrElse(options.output, DefaultOutput),
             options.discover.GetOr(false),
             RepoPatterns)
  }

  // ---------------------------------------------------------------------------
  // Repository discovery

  /** The characters JavaScript's regular-expression `.` does not match. */
  predicate IsLineTerminator(ch: char) {
    ch == '\n' || ch == '\r' || ch == '\U{2028}' || ch == '\U{2029}'
  }

  predicate NoLineTerminator(s: string) {
    forall i :: 0 <= i < |s| ==> !IsLineTerminator(s[i])
  }

  /** The text after the first `c` of `s` (empty when there is none). */
  function AfterFirst(s: string, c: char): (r: string)
    ensures |Before(s, c)| < |s| ==> Before(s, c) + [c] + r == s
  {
    var i := IndexOf(s, c);
    if i < |s| then s[i + 1..] else ""
  }

  /** The regular expression `^<pre>.*<post>$` applied to `name`. */
  predicate WildcardMatch(name: string, pre: string, post: string) {
    |pre| + |post| <= |name| && StartsWith(name, pre) && EndsWith(name, post)
    && NoLineTerminator(name[|pre|..|name| - |post|])
  }

  /** The anchored match is a split of the name into the fixed prefix, any
      run of characters other than line terminators, and the fixed suffix. */
  lemma WildcardMatchMeans(name: string, pre: string, post: string)
    ensures WildcardMatch(name, pre, post)
        <==> exists mid :: name == pre + mid + post && NoLineTerminator(mid)
  {
    if WildcardMatch(name, pre, post) {
      var mid := name[|pre|..|name| - |post|];
      assert name == name[..|pre|] + mid + name[|name| - |post|..];
    }
    if exists mid :: name == pre + mid + post && NoLineTerminator(mid) {
      var mid :| name == pre + mid + post && NoLineTerminator(mid);
      assert name[..|pre|] == pre;
      assert name[|name| - |post|..] == post;
      assert name[|pre|..|name| - |post|] == mid;
    }
  }

  /** One pattern test: a pattern with a `*` becomes a regular expression in
      which only the first `*` is replaced by `.*`; any other pattern must be
      the name itself. */
  predicate MatchesPattern(name: string, pattern: string) {
    if '*' in pattern then WildcardMatch(name, Before(pattern, '*'), AfterFirst(pattern, '*'))
    else name == pattern
  }

  /** `patterns.some(...)`. */
  function MatchesAny(name: string, patterns: seq<string>): (r: bool)
    ensures r <==> exists i :: 0 <= i < |patterns| && MatchesPattern(name, patterns[i])
    decreases |patterns|
  {
    if patterns == [] then false
    else MatchesPattern(name, patterns[0]) || MatchesAny(name, patterns[1..])
  }

  /** A pattern with a wildcard matches exactly the names that start with the
      text before the `*` and end with the text after it, with only
      characters other than line terminators in between. */
  lemma MatchesWildcardPattern(name: string, pattern: string)
    requires '*' in pattern
    ensures MatchesPattern(name, pattern)
        <==> exists mid :: name == Before(pattern, '*') + mid + AfterFirst(pattern, '*') && NoLineTerminator(mid)
  {
    WildcardMatchMeans(name, Before(pattern, '*'), AfterFirst(pattern, '*'));
  }

  /** None of the built-in patterns has a wildcard, so discovery with them
      is an exact-name test. */
  lemma RepoPatternsAreExact(name: string)
    ensures MatchesAny(name, RepoPatterns) <==> name in RepoPatterns
  {
    assert forall i :: 0 <= i < |RepoPatterns| ==> '*' !in RepoPatterns[i];
  }

  /** Node's `path.join(dir, name)` for a directory and a plain entry name. */
  function PathJoin(dir: string, name: string): (r: string)
    ensures EndsWith(r, name)
    ensures dir != "" ==> |r| > |name| && r[|r| - |name| - 1] == '/'
  {
    if dir == "" then name
    else if dir[|dir| - 1] == '/' then dir + name
    else dir + "/" + name
  }

  predicate Kept(e: DirEntry, patterns: seq<string>) {
    e.isDirectory && e.hasGitDir && MatchesAny(e.name, patterns)
  }

  /** The repository paths discovery yields for a listing of `dir`, in listing
      order; `None` is a root directory that does not exist. */
  function Discovered(dir: string, patterns: seq<string>, listing: Option<seq<DirEntry>>): (r: seq<string>)
    ensures listing.None? ==> r == []
    ensures listing.Some? ==> |r| <= |listing.value|
    decreases if listing.Some? then |listing.value| else 0
  {
    match listing
    case None => []
    case Some(es) =>
      if es == [] then []
      else
        var last := es[|es| - 1];
        Discovered(dir, patterns, Some(es[..|es| - 1])) + (if Kept(last, patterns) then [PathJoin(dir, last.name)] else [])
  }

  /** Every discovered path is the path of a kept entry. */
  lemma {:induction false} DiscoveredSound(dir: string, patterns: seq<string>, es: seq<DirEntry>, p: string)
    requires p in Discovered(dir, patterns, Some(es))
    ensures exists i :: 0 <= i < |es| && Kept(es[i], patterns) && p == PathJoin(dir, es[i].name)
    decreases |es|
  {
    var init := es[..|es| - 1];
    if p in Discovered(dir, patterns, Some(init)) {
      DiscoveredSound(dir, patterns, init, p);
      var i :| 0 <= i < |init| && Kept(init[i], patterns) && p == PathJoin(dir, init[i].name);
      assert es[i] == init[i];
    }
  }

  /** The path of every kept entry is discovered. */
  lemma {:induction false} DiscoveredComplete(dir: string, patterns: seq<string>, es: seq<DirEntry>, i: nat)
    requires i < |es| && Kept(es[i], patterns)
    ensures PathJoin(dir, es[i].name) in Discovered(dir, patterns, Some(es))
    decreases |es|
  {
    if i < |es| - 1 {
      var init := es[..|es| - 1];
      assert init[i] == es[i];
      DiscoveredComplete(dir, patterns, init, i);
    }
  }

  /** `discoverRepositories`. */
  method DiscoverRepositories(a: Analyzer, listing: Option<seq<DirEntry>>) returns (repositories: seq<string>)
    ensures repositories == Discovered(a.reposDir, a.repoPatterns, listing)
  {
    repositories := [];
    if listing.None? {
      return;
    }
    var entries := listing.value;
    var i := 0;
    while i < |entries|
      invariant 0 <= i <= |entries|
      invariant repositories == Discovered(a.reposDir, a.repoPatterns, Some(entries[..i]))
    {
      var entry := entries[i];
      assert entries[..i + 1][..i] == entries[..i];
      if !entry.isDirectory {
        i := i + 1;
        continue;
      }
      var repoPath := PathJoin(a.reposDir, entry.name);
      if !entry.hasGitDir {
        i := i + 1;
        continue;
      }
      var matchesPattern := MatchesAny(entry.name, a.repoPatterns);
      if matchesPattern {
        repositories := repositories + [repoPath];
      }
      i := i + 1;
    }
    assert entries[..i] == entries;
  }

  // ---------------------------------------------------------------------------
  // Commits of one repository

  /** `repoPath.split('/').pop() || repoPath`: the last path segment, or the
      whole path when that segment is empty. */
  function RepoName(repoPath: string): string {
    var last := AfterLast(repoPath, '/');
    if last == "" then repoPath else last
  }

  /** The repository name ends the path, and is either the whole path or a
      non-empty segment free of `/` that a `/` precedes. */
  lemma RepoNameIsLastSegment(repoPath: string)
    ensures var r := RepoName(repoPath);
            EndsWith(repoPath, r)
            && (r == repoPath || ('/' !in r && r != "" && repoPath[|repoPath| - |r| - 1] == '/'))
  {
    LastSegment(repoPath);
  }

  /** RepoName is the source's expression: the last piece of the split on
      `/`, unless it is empty. */
  lemma RepoNameIsLastSplitPiece(repoPath: string)
    ensures var parts := Split(repoPath, '/');
            RepoName(repoPath) == if parts[|parts| - 1] == "" then repoPath else parts[|parts| - 1]
  {
    SplitLastIsAfterLast(repoPath, '/');
  }

  /** The text after the last `/` is empty, the whole path, or a non-empty
      segment that a `/` precedes. */
  lemma LastSegment(p: string)
    ensures var r := AfterLast(p, '/');
            EndsWith(p, p) && (r == "" || r == p || (r != "" && p[|p| - |r| - 1] == '/'))
  {
    assert p[|p| - |p|..] == p;
    var r := AfterLast(p, '/');
    if |r| == |p| {
      assert r == p[|p| - |r|..];
    }
  }

  /** The name of a discovered repository is the directory entry's name. */
  lemma {:induction false} RepoNameOfPathJoin(dir: string, name: string)
    requires name != "" && '/' !in name
    ensures RepoName(PathJoin(dir, name)) == name
  {
    AfterLastUnique(PathJoin(dir, name), '/', name);
  }

  function ToCommit(e: LogEntry, repository: string): Commit {
    Commit(e.hash, e.date, e.message, e.authorName, repository)
  }

  /** The log entries as commits of `repository`, in log order. */
  function Tagged(es: seq<LogEntry>, repository: string): (r: seq<Commit>)
    ensures |r| == |es|
    ensures forall i {:trigger r[i]} :: 0 <= i < |es| ==> r[i] == ToCommit(es[i], repository)
    decreases |es|
  {
    if es == [] then [] else Tagged(es[..|es| - 1], repository) + [ToCommit(es[|es| - 1], repository)]
  }

  /** One turn of the tagging loop appends the next entry's commit. */
  lemma TaggedStep(es: seq<LogEntry>, i: nat, repository: string)
    requires i < |es|
    ensures Tagged(es[..i + 1], repository) == Tagged(es[..i], repository) + [ToCommit(es[i], repository)]
  {
    assert es[..i + 1][..i] == es[..i];
  }

  /** The commits `getGitCommits` returns: none when `git log` fails. */
  function CommitsOf(repoPath: string, log: Result<seq<LogEntry>, string>): seq<Commit> {
    match log
    case Failure(_) => []
    case Success(es) => Tagged(es, RepoName(repoPath))
  }

  /** `getGitCommits`: one commit per log entry, in log order, tagged with the
      repository name; a failing `git log` gives no commits. */
  method GetGitCommits(repoPath: string, log: Result<seq<LogEntry>, string>) returns (commits: seq<Commit>)
    ensures commits == CommitsOf(repoPath, log)
    ensures log.Failure? ==> commits == []
    ensures log.Success? ==> |commits| == |log.value|
    ensures log.Success? ==> forall i :: 0 <= i < |commits| ==>
              var e := log.value[i];
              commits[i] == Commit(e.hash, e.date, e.message, e.authorName, RepoName(repoPath))
  {
    commits := [];
    if log.Failure? {
      return;
    }
    var entries := log.value;
    var repository := RepoName(repoPath);
    var i := 0;
    while i < |entries|
      invariant 0 <= i <= |entries|
      invariant commits == Tagged(entries[..i], repository)
    {
      var commit := entries[i];
      TaggedStep(entries, i, repository);
      commits := commits + [ToCommit(commit, repository)];
      i := i + 1;
    }
    assert entries[..i] == entries;
  }

  // ---------------------------------------------------------------------------
  // Classification

  /** The prefixes that make a commit significant. */
  const SignificantPrefixes: seq<string> := ["feat", "fix", "merge", "refactor", "chore:", "perf", "docs", "test", "break"]

  /** `prefixes.some((p) => s.startsWith(p))`. */
  function StartsWithAny(s: string, prefixes: seq<string>): (r: bool)
    ensures r <==> exists i :: 0 <= i < |prefixes| && StartsWith(s, prefixes[i])
    decreases |prefixes|
  {
    if prefixes == [] then false
    else StartsWith(s, prefixes[0]) || StartsWithAny(s, prefixes[1..])
  }

  /** `isSignificantCommit`: the lower-cased message starts with one of the
      significant prefixes. */
  predicate IsSignificantCommit(message: string) {
    StartsWithAny(Lower(message), SignificantPrefixes)
  }

  /** The test is a literal prefix test: "Feature x" and "testing" qualify. */
  lemma SignificantExamples()
    ensures IsSignificantCommit("Feature x")
    ensures IsSignificantCommit("testing")
  {
    assert Lower("Feature x")[..4] == "feat";
    assert Lower("testing")[..4] == "test";
  }

  /** "chore update" has no colon after "chore", so it is not significant. */
  lemma ChoreWithoutColonIsNotSignificant()
    ensures !IsSignificantCommit("chore update")
  {
    var l := Lower("chore update");
    assert l[0] == 'c' && l[5] == ' ';
    assert forall i :: 0 <= i < |SignificantPrefixes| ==> !StartsWith(l, SignificantPrefixes[i]);
  }

  /** The commits of `cs` that are significant, in order (`filter`). */
  function Significant(cs: seq<Commit>): (r: seq<Commit>)
    ensures |r| <= |cs|
    ensures forall c :: c in r <==> c in cs && IsSignificantCommit(c.message)
    decreases |cs|
  {
    if cs == [] then []
    else
      var last := cs[|cs| - 1];
      assert cs == cs[..|cs| - 1] + [last];
      Significant(cs[..|cs| - 1]) + (if IsSignificantCommit(last.message) then [last] else [])
  }

  /** `commit.message.split(':')[0].toLowerCase() || 'other'`. */
  function CommitType(message: string): string {
    var t := Lower(Split(message, ':')[0]);
    if t == "" then "other" else t
  }

  /** The type is never empty and never holds a colon; it is the
      lower-cased text before the first colon unless that text is empty. */
  lemma CommitTypeMeans(message: string)
    ensures CommitType(message) != "" && ':' !in CommitType(message)
    ensures Before(message, ':') != "" ==> CommitType(message) == Lower(Before(message, ':'))
  {
    SplitFirstIsBefore(message, ':');
    assert "other" == ['o', 't', 'h', 'e', 'r'];
  }

  /** A message without a colon is its own type, lower-cased. */
  lemma CommitTypeWithoutColon(message: string)
    requires ':' !in message && message != ""
    ensures CommitType(message) == Lower(message)
  {
    SplitFirstIsBefore(message, ':');
    assert IndexOf(message, ':') == |message|;
  }

  /** The `other` fallback never applies to a significant commit: its text
      before the first colon starts with a letter. */
  lemma SignificantHasOwnType(message: string)
    requires IsSignificantCommit(message)
    ensures Before(message, ':') != "" && CommitType(message) == Lower(Before(message, ':'))
  {
    var i :| 0 <= i < |SignificantPrefixes| && StartsWith(Lower(message), SignificantPrefixes[i]);
    assert Lower(message)[0] == SignificantPrefixes[i][0] != ':';
    assert IndexOf(message, ':') != 0;
    CommitTypeMeans(message);
  }

  /** A type never starts with a capital letter. */
  lemma CommitTypeNotUpper(message: string)
    ensures CommitType(message) != "" && !('A' <= CommitType(message)[0] <= 'Z')
  {
    CommitTypeMeans(message);
  }

  function TypeKey(c: Commit): string { CommitType(c.message) }

  // ---------------------------------------------------------------------------
  // The note for one day

  function Segment(t: string, n: nat): string { t + ": " + NatToString(n) }

  /** One `<type>: <count>` segment per type of `ts`, counting the commits of
      `significant` that have that type. */
  function Tally(significant: seq<Commit>, ts: seq<string>): (r: seq<string>)
    ensures |r| == |ts|
    ensures forall i :: 0 <= i < |ts| ==> r[i] == Segment(ts[i], |Having(significant, TypeKey, ts[i])|)
    decreases |ts|
  {
    if ts == [] then []
    else Tally(significant, ts[..|ts| - 1]) + [Segment(ts[|ts| - 1], |Having(significant, TypeKey, ts[|ts| - 1])|)]
  }

  /** The types of `significant` in the order they first appear. */
  function TypesOf(significant: seq<Commit>): seq<string> {
    Distinct(Keys(significant, TypeKey))
  }

  /** The note `generateDayNote` writes. */
  function DayNote(all: seq<Commit>, significant: seq<Commit>): string {
    if |all| == 0 then "No activity"
    else if |significant| == 0 then NatToString(|all|) + " commit" + (if |all| > 1 then "s" else "")
    else Join(Tally(significant, TypesOf(significant)), ", ")
  }

  /** `generateDayNote`: counts the significant commits per type in a `Map`,
      then joins one segment per type, in the map's insertion order. */
  method GenerateDayNote(date: string, allCommits: seq<Commit>, significantCommits: seq<Commit>) returns (note: string)
    ensures note == DayNote(allCommits, significantCommits)
  {
    if |allCommits| == 0 {
      return "No activity";
    }
    if |significantCommits| == 0 {
      return NatToString(|allCommits|) + " commit" + (if |allCommits| > 1 then "s" else "");
    }
    var types, byType := GroupBy(significantCommits, TypeKey);
    GroupsHaving(significantCommits, TypeKey);
    var parts: seq<string> := [];
    var j := 0;
    while j < |types|
      invariant 0 <= j <= |types|
      invariant parts == Tally(significantCommits, types[..j])
    {
      var t := types[j];
      assert types[..j + 1][..j] == types[..j];
      assert t in byType;
      parts := parts + [Segment(t, |byType[t]|)];
      j := j + 1;
    }
    assert types[..j] == types;
    note := Join(parts, ", ");
  }

  /** The tally's types: each type of the significant commits once, in the
      order the types first appear. */
  lemma TallyTypes(significant: seq<Commit>)
    ensures var ts := TypesOf(significant);
            && NoDups(ts)
            && (forall t :: t in ts <==> exists i :: 0 <= i < |significant| && TypeKey(significant[i]) == t)
            && (forall i, j :: 0 <= i < j < |ts| ==>
                  FirstIndex(Keys(significant, TypeKey), ts[i]) < FirstIndex(Keys(significant, TypeKey), ts[j]))
  {
    var ks := Keys(significant, TypeKey);
    var ts := TypesOf(significant);
    DistinctKeysMembers(significant, TypeKey);
    forall i, j | 0 <= i < j < |ts|
      ensures FirstIndex(ks, ts[i]) < FirstIndex(ks, ts[j])
    {
      DistinctFirstSeenOrder(ks, i, j);
    }
  }

  /** The tally's counts: every type has a positive count, and the counts
      add up to the number of significant commits. */
  lemma TallyCounts(significant: seq<Commit>)
    ensures var ts := TypesOf(significant);
            && (forall t :: t in ts ==> |Having(significant, TypeKey, t)| > 0)
            && GroupSizes(significant, TypeKey, ts) == |significant|
  {
    var ts := TypesOf(significant);
    forall t | t in ts ensures |Having(significant, TypeKey, t)| > 0 {
      HavingNonEmpty(significant, TypeKey, t);
    }
    DistinctKeysPartition(significant, TypeKey);
  }

  /** A day without significant commits reads back as its commit count,
      followed by " commit", plural exactly when there is more than one. */
  lemma PlainNoteCount(all: seq<Commit>)
    requires |all| > 0
    ensures var note := DayNote(all, []);
            exists k :: 0 < k <= |note| && IsDigits(note[..k]) && DigitsValue(note[..k]) == |all|
                        && note[k..] == (if |all| > 1 then " commits" else " commit")
  {
    var digits := NatToString(|all|);
    var suffix := if |all| > 1 then " commits" else " commit";
    var note := DayNote(all, []);
    NatToStringRoundTrip(|all|);
    assert note == digits + suffix;
    assert note[..|digits|] == digits && note[|digits|..] == suffix;
    assert 0 < |digits| <= |note| && IsDigits(note[..|digits|]) && DigitsValue(note[..|digits|]) == |all|;
  }

  /** "No activity" is the note of an empty day and of no other day: every
      other note starts with a digit or a lower-cased type. */
  lemma NoActivityOnlyWhenEmpty(all: seq<Commit>, significant: seq<Commit>)
    ensures DayNote(all, significant) == "No activity" <==> |all| == 0
  {
    var note := DayNote(all, significant);
    if |all| > 0 {
      if |significant| == 0 {
        assert '0' <= note[0] <= '9';
      } else {
        var ks := Keys(significant, TypeKey);
        var ts := TypesOf(significant);
        assert ks[0] in ks;
        var t := ts[0];
        assert t in ks;
        var i :| 0 <= i < |ks| && ks[i] == t;
        CommitTypeNotUpper(significant[i].message);
        JoinStartsWithFirst(Tally(significant, ts), ", ");
        assert note[0] == t[0];
      }
      assert note[0] != 'N';
    }
  }

  // ---------------------------------------------------------------------------
  // Daily notes

  /** `commit.date.split('T')[0]`: the calendar day of a timestamp. */
  function DayKey(c: Commit): string { Before(c.date, 'T') }

  function DateOf(c: Commit): string { c.date }

  function NoteDate(n: DailyNote): string { n.date }

  function CountOf(n: DailyNote): nat { n.commitCount }

  /** The day key is `commit.date.split('T')[0]`: the timestamp's text
      before its first `T`. */
  lemma DayKeyIsDatePrefix(c: Commit)
    ensures DayKey(c) == Split(c.date, 'T')[0]
    ensures 'T' !in DayKey(c) && StartsWith(c.date, DayKey(c))
  {
    SplitFirstIsBefore(c.date, 'T');
  }

  /** The note of one day: built from the day's commits in input order, with
      the first and last timestamps taken from the commits sorted by date. */
  function NoteFor(commits: seq<Commit>, day: string): DailyNote {
    NoteOf(day, Having(commits, DayKey, day))
  }

  /** The note for `day` from that day's commits. */
  function NoteOf(day: string, dayCommits: seq<Commit>): DailyNote {
    var sorted := SortBy(dayCommits, DateOf);
    DailyNote(day, DayNote(dayCommits, Significant(dayCommits)), |dayCommits|,
              if |sorted| > 0 then Some(sorted[0].date) else None,
              if |sorted| > 0 then Some(sorted[|sorted| - 1].date) else None)
  }

  /** The body of the loop over the map's entries in `generateDailyNotes`:
      the day's note is written from the commits in input order, and only
      then are they sorted by date. */
  method BuildDailyNote(date: string, dayCommits: seq<Commit>) returns (entry: DailyNote)
    ensures entry == NoteOf(date, dayCommits)
  {
    var significantCommits := Significant(dayCommits);
    var note := GenerateDayNote(date, dayCommits, significantCommits);
    var sortedCommits := SortBy(dayCommits, DateOf);
    entry := DailyNote(date, note, |dayCommits|,
                       if |sortedCommits| > 0 then Some(sortedCommits[0].date) else None,
                       if |sortedCommits| > 0 then Some(sortedCommits[|sortedCommits| - 1].date) else None);
  }

  /** The notes of `days`, in the order of `days`. */
  function NotesFor(commits: seq<Commit>, days: seq<string>): (r: seq<DailyNote>)
    ensures |r| == |days|
    decreases |days|
  {
    if days == [] then [] else NotesFor(commits, days[..|days| - 1]) + [NoteFor(commits, days[|days| - 1])]
  }

  lemma NotesForSnoc(commits: seq<Commit>, days: seq<string>, day: string)
    ensures NotesFor(commits, days + [day]) == NotesFor(commits, days) + [NoteOf(day, Having(commits, DayKey, day))]
  {
    assert (days + [day])[..|days|] == days;
  }

  /** The days that have commits, in the order they first appear. */
  function Days(commits: seq<Commit>): seq<string> {
    Distinct(Keys(commits, DayKey))
  }

  /** What `generateDailyNotes` returns. */
  function DailyNotes(commits: seq<Commit>): seq<DailyNote> {
    SortBy(NotesFor(commits, Days(commits)), NoteDate)
  }

  /** `generateDailyNotes`: groups the commits by day in a `Map`, writes each
      day's note before sorting that day's commits by date, and returns the
      notes sorted by date. */
  method GenerateDailyNotes(commits: seq<Commit>) returns (notes: seq<DailyNote>)
    ensures notes == DailyNotes(commits)
  {
    var days, dailyMap := GroupBy(commits, DayKey);
    var unsorted: seq<DailyNote> := [];
    var j := 0;
    while j < |days|
      invariant 0 <= j <= |days|
      invariant unsorted == NotesFor(commits, days[..j])
    {
      var date := days[j];
      NotesForStep(commits, days, j, dailyMap);
      var entry := BuildDailyNote(date, dailyMap[date]);
      unsorted := unsorted + [entry];
      j := j + 1;
    }
    assert days[..j] == days;
    notes := SortBy(unsorted, NoteDate);
  }

  /** One turn of the note loop: the day's group in the map is that day's
      commits, and its note extends the notes so far. */
  lemma NotesForStep(commits: seq<Commit>, days: seq<string>, j: nat, dailyMap: map<string, seq<Commit>>)
    requires days == Days(commits) && dailyMap == Groups(commits, DayKey)
    requires j < |days|
    ensures days[j] in dailyMap && dailyMap[days[j]] == Having(commits, DayKey, days[j])
    ensures NotesFor(commits, days[..j + 1]) == NotesFor(commits, days[..j]) + [NoteOf(days[j], dailyMap[days[j]])]
  {
    GroupsAt(commits, DayKey, days[j]);
    PrefixSnoc(days, j);
    NotesForSnoc(commits, days[..j], days[j]);
  }

  /** Each day's note is about that day and counts its commits. */
  lemma NoteForCount(commits: seq<Commit>, day: string)
    requires day in Days(commits)
    ensures NoteFor(commits, day).date == day
    ensures NoteFor(commits, day).commitCount == |Having(commits, DayKey, day)| > 0
  {
    DistinctKeysMembers(commits, DayKey);
    KeysMembers(commits, DayKey);
    HavingNonEmpty(commits, DayKey, day);
  }

  /** Each day's first and last timestamps are the least and the greatest of
      that day's timestamps. */
  lemma NoteForBounds(commits: seq<Commit>, day: string)
    requires day in Days(commits)
    ensures var n := NoteFor(commits, day);
            var dayCommits := Having(commits, DayKey, day);
            && n.firstCommit.Some? && n.lastCommit.Some?
            && (exists c :: c in dayCommits && c.date == n.firstCommit.value)
            && (exists c :: c in dayCommits && c.date == n.lastCommit.value)
            && (forall c :: c in dayCommits ==> LessEq(n.firstCommit.value, c.date) && LessEq(c.date, n.lastCommit.value))
  {
    NoteForCount(commits, day);
    var dayCommits := Having(commits, DayKey, day);
    SortByBounds(dayCommits, DateOf);
  }
  /** The notes of `days` are dated with `days`, in that order. */
  lemma {:induction false} NotesForDates(commits: seq<Commit>, days: seq<string>)
    ensures Keys(NotesFor(commits, days), NoteDate) == days
    decreases |days|
  {
    if days != [] {
      var init := days[..|days| - 1];
      NotesForDates(commits, init);
      DistinctKeysSnoc(NotesFor(commits, init), NoteFor(commits, days[|days| - 1]), NoteDate);
      assert init + [days[|days| - 1]] == days;
    }
  }

  /** The note at each position is the note of the day at that position. */
  lemma {:induction false} NotesForAt(commits: seq<Commit>, days: seq<string>, i: nat)
    requires i < |days|
    ensures NotesFor(commits, days)[i] == NoteFor(commits, days[i])
    decreases |days|
  {
    if i < |days| - 1 {
      NotesForAt(commits, days[..|days| - 1], i);
    }
  }

  /** The notes of `days` are exactly the notes of those days. */
  lemma NotesForMembers(commits: seq<Commit>, days: seq<string>, n: DailyNote)
    ensures n in NotesFor(commits, days) <==> exists d :: d in days && n == NoteFor(commits, d)
  {
    if n in NotesFor(commits, days) {
      var d := NotesForSource(commits, days, n);
    }
    if exists d :: d in days && n == NoteFor(commits, d) {
      var d :| d in days && n == NoteFor(commits, d);
      NotesForHas(commits, days, d);
    }
  }

  /** Every note of `days` is the note of one of them. */
  lemma NotesForSource(commits: seq<Commit>, days: seq<string>, n: DailyNote) returns (d: string)
    requires n in NotesFor(commits, days)
    ensures d in days && n == NoteFor(commits, d)
  {
    var notes := NotesFor(commits, days);
    var i :| 0 <= i < |notes| && notes[i] == n;
    NotesForAt(commits, days, i);
    d := days[i];
  }

  /** The note of each of `days` is among the notes. */
  lemma NotesForHas(commits: seq<Commit>, days: seq<string>, d: string)
    requires d in days
    ensures NoteFor(commits, d) in NotesFor(commits, days)
  {
    var i :| 0 <= i < |days| && days[i] == d;
    NotesForAt(commits, days, i);
    assert NotesFor(commits, days)[i] == NoteFor(commits, d);
  }

  /** The commit counts of the notes of `days` add up to the sizes of
      those days' groups. */
  lemma {:induction false} NotesForTotal(commits: seq<Commit>, days: seq<string>)
    ensures SumBy(NotesFor(commits, days), CountOf) == GroupSizes(commits, DayKey, days)
    decreases |days|
  {
    if days != [] {
      var init := days[..|days| - 1];
      NotesForTotal(commits, init);
      var notes := NotesFor(commits, days);
      assert notes[..|notes| - 1] == NotesFor(commits, init);
    }
  }

  /** `generateDailyNotes` yields one note per day that has commits and no
      other note. */
  lemma DailyNotesMembers(commits: seq<Commit>, n: DailyNote)
    ensures n in DailyNotes(commits) <==> exists d :: d in Days(commits) && n == NoteFor(commits, d)
  {
    var unsorted := NotesFor(commits, Days(commits));
    assert multiset(DailyNotes(commits)) == multiset(unsorted);
    assert n in DailyNotes(commits) <==> n in multiset(unsorted);
    NotesForMembers(commits, Days(commits), n);
  }

  /** The notes are in strictly increasing date order, and their dates are
      exactly the days on which there are commits. */
  lemma DailyNotesDates(commits: seq<Commit>)
    ensures var dates := Keys(DailyNotes(commits), NoteDate);
            && (forall i, j :: 0 <= i < j < |dates| ==> LessEq(dates[i], dates[j]) && dates[i] != dates[j])
            && (forall d :: d in dates <==> d in Days(commits))
  {
    var days := Days(commits);
    var unsorted := NotesFor(commits, days);
    var dates := Keys(DailyNotes(commits), NoteDate);
    NotesForDates(commits, days);
    KeysSort(unsorted, NoteDate);
    assert multiset(dates) == multiset(days);
    NoDupsPermutation(days, dates);
    forall d ensures d in dates <==> d in days {
      assert d in dates <==> d in multiset(dates);
      assert d in days <==> d in multiset(days);
    }
    forall i, j | 0 <= i < j < |dates| ensures LessEq(dates[i], dates[j]) {
      assert dates[i] == NoteDate(DailyNotes(commits)[i]);
      assert dates[j] == NoteDate(DailyNotes(commits)[j]);
    }
  }

  /** The notes' commit counts add up to the number of commits. */
  lemma DailyNotesTotal(commits: seq<Commit>)
    ensures SumBy(DailyNotes(commits), CountOf) == |commits|
  {
    var days := Days(commits);
    SumBySort(NotesFor(commits, days), NoteDate, CountOf);
    NotesForTotal(commits, days);
    DistinctKeysPartition(commits, DayKey);
  }

  /** No commits, no notes. */
  lemma DailyNotesEmpty()
    ensures DailyNotes([]) == []
  {
  }
  // ---------------------------------------------------------------------------
  // The whole run

  /** What `analyzeAllRepos` does: in discover mode it lists the discovered
      paths and ends the process, otherwise it returns the analysis. */
  datatype Outcome = DiscoverOnly(repositories: seq<string>) | Analyzed(result: AnalysisResult)

  /** The outcome of `git log` on a repository path between two dates. */
  type GitLog = (string, string, string) -> Result<seq<LogEntry>, string>

  /** The commits of `repos`, repository by repository, each in log order. */
  function AllCommits(a: Analyzer, repos: seq<string>, gitLog: GitLog): seq<Commit>
    decreases |repos|
  {
    if repos == [] then []
    else
      var last := repos[|repos| - 1];
      AllCommits(a, repos[..|repos| - 1], gitLog) + CommitsOf(last, gitLog(last, a.startDate, a.endDate))
  }

  /** The analysis of the discovered repositories. */
  function Analysis(a: Analyzer, listing: Option<seq<DirEntry>>, gitLog: GitLog): AnalysisResult {
    var repositories := Discovered(a.reposDir, a.repoPatterns, listing);
    var allCommits := AllCommits(a, repositories, gitLog);
    AnalysisResult(Metadata(a.startDate, a.endDate, a.reposDir, |repositories|, |allCommits|),
                   DailyNotes(allCommits), allCommits)
  }

  /** `analyzeAllRepos`. */
  method AnalyzeAllRepos(a: Analyzer, listing: Option<seq<DirEntry>>, gitLog: GitLog) returns (outcome: Outcome)
    ensures a.discover ==> outcome == DiscoverOnly(Discovered(a.reposDir, a.repoPatterns, listing))
    ensures !a.discover ==> outcome == Analyzed(Analysis(a, listing, gitLog))
  {
    var repositories := DiscoverRepositories(a, listing);
    if a.discover {
      return DiscoverOnly(repositories);
    }
    var allCommits: seq<Commit> := [];
    var i := 0;
    while i < |repositories|
      invariant 0 <= i <= |repositories|
      invariant allCommits == AllCommits(a, repositories[..i], gitLog)
    {
      var repoPath := repositories[i];
      var commits := GetGitCommits(repoPath, gitLog(repoPath, a.startDate, a.endDate));
      PrefixSnoc(repositories, i);
      allCommits := allCommits + commits;
      i := i + 1;
    }
    assert repositories[..i] == repositories;
    var dailyNotes := GenerateDailyNotes(allCommits);
    outcome := Analyzed(AnalysisResult(Metadata(a.startDate, a.endDate, a.reposDir, |repositories|, |allCommits|),
                                       dailyNotes, allCommits));
  }

  /** Every collected commit belongs to one of the repositories, by name. */
  lemma {:induction false} AllCommitsRepository(a: Analyzer, repos: seq<string>, gitLog: GitLog, c: Commit)
    requires c in AllCommits(a, repos, gitLog)
    ensures exists r :: r in repos && c.repository == RepoName(r)
    decreases |repos|
  {
    var init := repos[..|repos| - 1];
    var last := repos[|repos| - 1];
    if c in AllCommits(a, init, gitLog) {
      AllCommitsRepository(a, init, gitLog, c);
      var r :| r in init && c.repository == RepoName(r);
      assert r in repos;
    } else {
      var log := gitLog(last, a.startDate, a.endDate);
      var cs := CommitsOf(last, log);
      assert c in cs;
      var k :| 0 <= k < |cs| && cs[k] == c;
      assert c.repository == RepoName(last);
    }
  }

  /** The number of commits collected is the sum, over the repositories, of
      the number of entries each successful `git log` returned. */
  function LoggedCount(a: Analyzer, repos: seq<string>, gitLog: GitLog): nat
    decreases |repos|
  {
    if repos == [] then 0
    else
      var last := repos[|repos| - 1];
      var log := gitLog(last, a.startDate, a.endDate);
      LoggedCount(a, repos[..|repos| - 1], gitLog) + (if log.Success? then |log.value| else 0)
  }

  lemma {:induction false} AllCommitsCount(a: Analyzer, repos: seq<string>, gitLog: GitLog)
    ensures |AllCommits(a, repos, gitLog)| == LoggedCount(a, repos, gitLog)
    decreases |repos|
  {
    if repos != [] {
      AllCommitsCount(a, repos[..|repos| - 1], gitLog);
    }
  }

  /** The metadata agrees with the rest of the result: it counts the
      discovered repositories and every collected commit, and the notes'
      counts add up to the same total. */
  lemma AnalysisTotals(a: Analyzer, listing: Option<seq<DirEntry>>, gitLog: GitLog)
    ensures var r := Analysis(a, listing, gitLog);
            var repositories := Discovered(a.reposDir, a.repoPatterns, listing);
            && r.metadata.repositoryCount == |repositories|
            && r.metadata.totalCommits == |r.commits| == LoggedCount(a, repositories, gitLog)
            && SumBy(r.dailyNotes, CountOf) == r.metadata.totalCommits
            && r.metadata.startDate == a.startDate && r.metadata.endDate == a.endDate
            && r.metadata.reposDir == a.reposDir
  {
    var repositories := Discovered(a.reposDir, a.repoPatterns, listing);
    AllCommitsCount(a, repositories, gitLog);
    DailyNotesTotal(AllCommits(a, repositories, gitLog));
  }

  /** When every entry name is a plain non-empty name, every analysed commit
      is tagged with the name of a directory entry that discovery kept. */
  lemma AnalyzedCommitsFromKept(a: Analyzer, es: seq<DirEntry>, gitLog: GitLog, c: Commit)
    requires forall i :: 0 <= i < |es| ==> es[i].name != "" && '/' !in es[i].name
    requires c in Analysis(a, Some(es), gitLog).commits
    ensures exists i :: 0 <= i < |es| && Kept(es[i], a.repoPatterns) && c.repository == es[i].name
  {
    var repositories := Discovered(a.reposDir, a.repoPatterns, Some(es));
    AllCommitsRepository(a, repositories, gitLog, c);
    var p :| p in repositories && c.repository == RepoName(p);
    DiscoveredSound(a.reposDir, a.repoPatterns, es, p);
    var i :| 0 <= i < |es| && Kept(es[i], a.repoPatterns) && p == PathJoin(a.reposDir, es[i].name);
    RepoNameOfPathJoin(a.reposDir, es[i].name);
  }
}
