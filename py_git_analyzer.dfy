/** The Python `GitHistoryAnalyzer` (src/git_history_analyzer.py): it finds
    repositories by glob patterns, parses `git log` output line by line,
    sorts all commits by date and renders one multi-line note per day.

    The analyzer object keeps the list of repositories it has discovered and
    appends to it on every discovery, so it is a class. The filesystem and
    `git` come in as parameters: `Path.glob`, the existence test for
    `<path>/.git`, and the output of `git log` (or the exception it raised). */
module PyGitAnalyzer {
  import opened Wrappers
  import opened Text
  import opened Seqs

  const DefaultStartDate := "2025-09-30"
  const DefaultEndDate := "2025-10-09"
  const DefaultReposDir := "/Users/ebowwa/apps"

  /** The glob patterns discovery tries, in order. */
  const RepoPatterns: seq<string> := ["openhardwareai", "app-store-connect-wrapper", "CleanShot*", "speakd", "node-starter"]

  /** A commit dict: `hash`, `date`, `message`, `author`, `repo`. */
  datatype Commit = Commit(hash: string, date: string, message: string, author: string, repo: string)

  /** `Path(dir).glob(pattern)`, as path strings in the order it yields them. */
  type Glob = (string, string) -> seq<string>

  /** The stdout of `git log` on a repository between two dates, or the
      message of the exception the call raised. */
  type GitLog = (string, string, string) -> Result<string, string>

  // ---------------------------------------------------------------------------
  // Discovery

  /** The paths among `hits` that hold a `.git` entry, in order. */
  function WithGitDir(hits: seq<string>, hasGitDir: string -> bool): seq<string>
    decreases |hits|
  {
    if hits == [] then []
    else
      var last := hits[|hits| - 1];
      WithGitDir(hits[..|hits| - 1], hasGitDir) + (if hasGitDir(last) then [last] else [])
  }

  /** A hit is kept exactly when it holds `.git`. */
  lemma {:induction false} WithGitDirMembers(hits: seq<string>, hasGitDir: string -> bool, p: string)
    ensures p in WithGitDir(hits, hasGitDir) <==> p in hits && hasGitDir(p)
    decreases |hits|
  {
    if hits != [] {
      var last := hits[|hits| - 1];
      WithGitDirMembers(hits[..|hits| - 1], hasGitDir, p);
      assert hits == hits[..|hits| - 1] + [last];
    }
  }

  /** One turn of the inner discovery loop, after what was there before:
      hit `i` is kept when it holds `.git`. */
  lemma WithGitDirStep(before: seq<string>, hits: seq<string>, i: nat, hasGitDir: string -> bool)
    requires i < |hits|
    ensures before + WithGitDir(hits[..i + 1], hasGitDir)
            == before + WithGitDir(hits[..i], hasGitDir) + if hasGitDir(hits[i]) then [hits[i]] else []
  {
    assert hits[..i + 1][..i] == hits[..i];
  }

  /** What one discovery appends: pattern by pattern, the glob's hits that
      are git repositories. */
  function Found(dir: string, patterns: seq<string>, glob: Glob, hasGitDir: string -> bool): seq<string>
    decreases |patterns|
  {
    if patterns == [] then []
    else
      Found(dir, patterns[..|patterns| - 1], glob, hasGitDir)
        + WithGitDir(glob(dir, patterns[|patterns| - 1]), hasGitDir)
  }

  lemma FoundSnoc(dir: string, patterns: seq<string>, pattern: string, glob: Glob, hasGitDir: string -> bool)
    ensures Found(dir, patterns + [pattern], glob, hasGitDir)
            == Found(dir, patterns, glob, hasGitDir) + WithGitDir(glob(dir, pattern), hasGitDir)
  {
    assert (patterns + [pattern])[..|patterns|] == patterns;
  }

  /** One turn of the discovery loop, after what was there before. */
  lemma FoundStep(before: seq<string>, dir: string, patterns: seq<string>, pattern: string, glob: Glob,
                  hasGitDir: string -> bool)
    ensures before + Found(dir, patterns + [pattern], glob, hasGitDir)
            == before + Found(dir, patterns, glob, hasGitDir) + WithGitDir(glob(dir, pattern), hasGitDir)
  {
    FoundSnoc(dir, patterns, pattern, glob, hasGitDir);
  }

  /** A path is found exactly when some pattern's glob yields it and it is
      a git repository. */
  lemma {:induction false} FoundMembers(dir: string, patterns: seq<string>, glob: Glob, hasGitDir: string -> bool, p: string)
    ensures p in Found(dir, patterns, glob, hasGitDir)
            <==> hasGitDir(p) && exists i :: 0 <= i < |patterns| && p in glob(dir, patterns[i])
    decreases |patterns|
  {
    if patterns != [] {
      var init := patterns[..|patterns| - 1];
      var last := patterns[|patterns| - 1];
      assert patterns == init + [last];
      FoundMembers(dir, init, glob, hasGitDir, p);
      WithGitDirMembers(glob(dir, last), hasGitDir, p);
      GlobbedSnoc(dir, init, last, glob, p);
    }
  }

  /** Some pattern of `patterns + [last]` yields `p` exactly when some
      pattern of `patterns` does or `last` does. */
  lemma GlobbedSnoc(dir: string, patterns: seq<string>, last: string, glob: Glob, p: string)
    ensures (exists i :: 0 <= i < |patterns + [last]| && p in glob(dir, (patterns + [last])[i]))
            <==> (exists i :: 0 <= i < |patterns| && p in glob(dir, patterns[i])) || p in glob(dir, last)
  {
    var all := patterns + [last];
    if exists i :: 0 <= i < |all| && p in glob(dir, all[i]) {
      var i :| 0 <= i < |all| && p in glob(dir, all[i]);
      if i < |patterns| {
        assert all[i] == patterns[i];
      }
    }
    if exists i :: 0 <= i < |patterns| && p in glob(dir, patterns[i]) {
      var i :| 0 <= i < |patterns| && p in glob(dir, patterns[i]);
      assert all[i] == patterns[i];
    }
    assert all[|patterns|] == last;
  }

  // ---------------------------------------------------------------------------
  // Parsing `git log --pretty=format:%H|%ad|%s|%an`

  /** The `maxsplit` of the line split: four fields at most. */
  const MaxSplit: nat := 3

  /** `line.split('|', 3)` with at least four parts becomes a commit. */
  function ParseLine(line: string, repo: string): Option<Commit> {
    var parts := SplitN(line, '|', MaxSplit);
    if |parts| >= 4 then Some(Commit(parts[0], parts[1], parts[2], parts[3], repo)) else None
  }

  /** The commits of the non-empty, well-formed lines, in line order. */
  function ParseLines(lines: seq<string>, repo: string): seq<Commit>
    decreases |lines|
  {
    if lines == [] then []
    else
      var line := lines[|lines| - 1];
      ParseLines(lines[..|lines| - 1], repo)
        + (if line != "" && ParseLine(line, repo).Some? then [ParseLine(line, repo).value] else [])
  }

  /** One turn of the parsing loop, given the pieces of line `i` when it
      is not empty. */
  lemma ParseLinesStep(lines: seq<string>, i: nat, repo: string, parts: seq<string>)
    requires i < |lines|
    requires lines[i] != "" ==> parts == SplitN(lines[i], '|', MaxSplit)
    ensures ParseLines(lines[..i + 1], repo)
            == ParseLines(lines[..i], repo)
               + (if lines[i] != "" && |parts| >= 4 then [Commit(parts[0], parts[1], parts[2], parts[3], repo)] else [])
  {
    assert lines[..i + 1][..i] == lines[..i];
  }

  /** The commits `get_git_commits` returns; any exception gives none. */
  function CommitsOf(repoPath: string, output: Result<string, string>): seq<Commit> {
    match output
    case Failure(_) => []
    case Success(stdout) => ParseLines(Split(Strip(stdout), '\n'), AfterLast(repoPath, '/'))
  }

  /** A line is kept exactly when it holds at least three `|`; its fields
      are the text around the first three, and the author keeps the rest. */
  lemma ParseLineMeans(line: string, repo: string)
    ensures ParseLine(line, repo).Some? <==> Count(line, '|') >= 3
    ensures ParseLine(line, repo).Some? ==>
              var c := ParseLine(line, repo).value;
              && '|' !in c.hash && '|' !in c.date && '|' !in c.message
              && line == c.hash + "|" + c.date + "|" + c.message + "|" + c.author
              && c.repo == repo
  {
    SplitNCount(line, '|', MaxSplit);
    if |SplitN(line, '|', MaxSplit)| >= 4 {
      FourFields(line);
    }
  }

  /** A line split into four pieces is the first three, `|`-free, and the
      rest, joined by `|`. */
  lemma FourFields(line: string)
    requires |SplitN(line, '|', MaxSplit)| >= 4
    ensures var parts := SplitN(line, '|', MaxSplit);
            && '|' !in parts[0] && '|' !in parts[1] && '|' !in parts[2]
            && line == parts[0] + "|" + parts[1] + "|" + parts[2] + "|" + parts[3]
  {
    var parts := SplitN(line, '|', MaxSplit);
    SplitNPieces(line, '|', MaxSplit);
    assert parts == [parts[0], parts[1], parts[2], parts[3]];
    JoinFour(parts[0], parts[1], parts[2], parts[3], "|");
  }

  /** The line the log format writes for a commit reads back as that commit
      when the hash, date and subject hold no `|`; the author may. */
  lemma ParseFormattedLine(hash: string, date: string, message: string, author: string, repo: string)
    requires '|' !in hash && '|' !in date && '|' !in message
    ensures ParseLine(hash + "|" + date + "|" + message + "|" + author, repo)
            == Some(Commit(hash, date, message, author, repo))
  {
    JoinFour(hash, date, message, author, "|");
    SplitNJoin([hash, date, message, author], '|');
  }

  /** Every parsed commit comes from a non-empty line of the output. */
  lemma {:induction false} ParseLinesSound(lines: seq<string>, repo: string, c: Commit)
    requires c in ParseLines(lines, repo)
    ensures exists i :: 0 <= i < |lines| && lines[i] != "" && ParseLine(lines[i], repo) == Some(c)
    decreases |lines|
  {
    var init := lines[..|lines| - 1];
    if c in ParseLines(init, repo) {
      ParseLinesSound(init, repo, c);
      var i :| 0 <= i < |init| && init[i] != "" && ParseLine(init[i], repo) == Some(c);
      assert lines[i] == init[i];
    }
  }

  /** Every non-empty well-formed line gives a commit. */
  lemma {:induction false} ParseLinesComplete(lines: seq<string>, repo: string, i: nat)
    requires i < |lines| && lines[i] != "" && ParseLine(lines[i], repo).Some?
    ensures ParseLine(lines[i], repo).value in ParseLines(lines, repo)
    decreases |lines|
  {
    if i < |lines| - 1 {
      var init := lines[..|lines| - 1];
      assert init[i] == lines[i];
      ParseLinesComplete(init, repo, i);
    }
  }

  /** All commits of one repository carry its basename. */
  lemma {:induction false} ParseLinesRepo(lines: seq<string>, repo: string)
    ensures forall c :: c in ParseLines(lines, repo) ==> c.repo == repo
    decreases |lines|
  {
    if lines != [] {
      ParseLinesRepo(lines[..|lines| - 1], repo);
    }
  }

  /** The commits of the repositories, repository by repository. */
  function AllCommits(repos: seq<string>, startDate: string, endDate: string, gitLog: GitLog): seq<Commit>
    decreases |repos|
  {
    if repos == [] then []
    else
      var last := repos[|repos| - 1];
      AllCommits(repos[..|repos| - 1], startDate, endDate, gitLog) + CommitsOf(last, gitLog(last, startDate, endDate))
  }

  function DateOf(c: Commit): string { c.date }

  function RepoOf(c: Commit): string { c.repo }

  // ---------------------------------------------------------------------------
  // Grouping by day

  /** The day of a `%Y-%m-%d %H:%M` date: its text before the first space. */
  function DateOnly(c: Commit): string { Before(c.date, ' ') }

  /** The day is `commit['date'].split(' ')[0]`, a prefix of the date
      without a space. */
  lemma DateOnlyIsSplit(c: Commit)
    ensures DateOnly(c) == Split(c.date, ' ')[0]
    ensures ' ' !in DateOnly(c) && StartsWith(c.date, DateOnly(c))
  {
    SplitFirstIsBefore(c.date, ' ');
  }

  /** A value of the `daily_notes` dict: the day's commits in input order,
      its repositories, the dates of its first and last commits in input
      order, and their number. The `repos` set is kept as a list without
      duplicates in first-seen order; only its size and its sorted contents
      are ever read. */
  datatype Day = Day(commits: seq<Commit>, repos: seq<string>, firstCommit: string, lastCommit: string,
                     totalCommits: nat)

  /** One turn of the grouping loop: a new day starts with the commit's date
      as both first and last; then the commit is appended, its repository
      added, `last_commit` overwritten and the count raised. */
  function AddCommit(days: map<string, Day>, c: Commit): map<string, Day> {
    var k := DateOnly(c);
    var d := if k in days then days[k] else Day([], [], c.date, c.date, 0);
    days[k := Day(d.commits + [c], if c.repo in d.repos then d.repos else d.repos + [c.repo],
                  d.firstCommit, c.date, d.totalCommits + 1)]
  }

  /** The `daily_notes` dict after the grouping loop. */
  function Tally(commits: seq<Commit>): map<string, Day>
    decreases |commits|
  {
    if commits == [] then map[] else AddCommit(Tally(commits[..|commits| - 1]), commits[|commits| - 1])
  }

  /** What a day's entry holds, in terms of that day's commits. */
  function Summary(cs: seq<Commit>): Day
    requires |cs| > 0
  {
    Day(cs, Distinct(Keys(cs, RepoOf)), cs[0].date, cs[|cs| - 1].date, |cs|)
  }

  /** The dict has an entry for exactly the days that occur. */
  lemma {:induction false} TallyDomain(commits: seq<Commit>, k: string)
    ensures k in Tally(commits) <==> k in Keys(commits, DateOnly)
    decreases |commits|
  {
    if commits != [] {
      var init := commits[..|commits| - 1];
      var c := commits[|commits| - 1];
      TallyDomain(init, k);
      assert init + [c] == commits;
      DistinctKeysSnoc(init, c, DateOnly);
    }
  }

  /** Appending a commit to a day's commits, as the loop does to an entry. */
  lemma SummarySnoc(h: seq<Commit>, c: Commit)
    requires |h| > 0
    ensures var d := Summary(h);
            Summary(h + [c])
            == Day(h + [c], if c.repo in d.repos then d.repos else d.repos + [c.repo], h[0].date, c.date, |h| + 1)
  {
    DistinctKeysSnoc(h, c, RepoOf);
    assert (h + [c])[0] == h[0];
  }

  /** The entry of a day's first commit. */
  lemma SummaryOne(c: Commit)
    ensures Summary([c]) == Day([c], [c.repo], c.date, c.date, 1)
  {
    var ks := Keys([c], RepoOf);
    assert ks == [c.repo];
    assert ks[..|ks| - 1] == [];
    assert Distinct([]) == [];
    assert Distinct(ks) == [c.repo];
  }

  /** A day's entry holds that day's commits in input order, their distinct
      repositories, the first and the last of their dates in input order,
      and their number. */
  lemma {:induction false} TallyValue(commits: seq<Commit>, k: string)
    requires k in Keys(commits, DateOnly)
    ensures |Having(commits, DateOnly, k)| > 0
    ensures k in Tally(commits) && Tally(commits)[k] == Summary(Having(commits, DateOnly, k))
    decreases |commits|
  {
    var init := commits[..|commits| - 1];
    var c := commits[|commits| - 1];
    assert init + [c] == commits;
    DistinctKeysSnoc(init, c, DateOnly);
    if k != DateOnly(c) {
      TallyValue(init, k);
      TallyOtherDay(init, c, k);
    } else if k in Keys(init, DateOnly) {
      TallyValue(init, k);
      TallySameDay(init, c);
    } else {
      TallyNewDay(init, c);
    }
  }

  /** A commit leaves the entries of the other days as they were. */
  lemma TallyOtherDay(init: seq<Commit>, c: Commit, k: string)
    requires k != DateOnly(c)
    requires |Having(init, DateOnly, k)| > 0
    requires k in Tally(init) && Tally(init)[k] == Summary(Having(init, DateOnly, k))
    ensures |Having(init + [c], DateOnly, k)| > 0
    ensures k in Tally(init + [c]) && Tally(init + [c])[k] == Summary(Having(init + [c], DateOnly, k))
  {
    TallyStep(init, c);
    AddCommitOther(Tally(init), c, k);
    HavingSnoc(init, c, DateOnly, k);
    assert Having(init + [c], DateOnly, k) == Having(init, DateOnly, k);
  }

  /** Adding a commit leaves the other days' entries alone. */
  lemma AddCommitOther(days: map<string, Day>, c: Commit, k: string)
    requires k != DateOnly(c) && k in days
    ensures k in AddCommit(days, c) && AddCommit(days, c)[k] == days[k]
  {
  }

  /** A commit of a day already seen extends that day's entry. */
  lemma TallySameDay(init: seq<Commit>, c: Commit)
    requires |Having(init, DateOnly, DateOnly(c))| > 0
    requires DateOnly(c) in Tally(init) && Tally(init)[DateOnly(c)] == Summary(Having(init, DateOnly, DateOnly(c)))
    ensures Having(init + [c], DateOnly, DateOnly(c)) == Having(init, DateOnly, DateOnly(c)) + [c]
    ensures DateOnly(c) in Tally(init + [c])
    ensures Tally(init + [c])[DateOnly(c)] == Summary(Having(init + [c], DateOnly, DateOnly(c)))
  {
    var k := DateOnly(c);
    TallyStep(init, c);
    HavingSnoc(init, c, DateOnly, k);
    SummarySnoc(Having(init, DateOnly, k), c);
  }

  /** The first commit of a day starts an entry holding only itself. */
  lemma TallyNewDay(init: seq<Commit>, c: Commit)
    requires DateOnly(c) !in Keys(init, DateOnly)
    ensures Having(init + [c], DateOnly, DateOnly(c)) == [c]
    ensures DateOnly(c) in Tally(init + [c])
    ensures Tally(init + [c])[DateOnly(c)] == Summary([c])
  {
    var k := DateOnly(c);
    TallyStep(init, c);
    TallyDomain(init, k);
    HavingSnoc(init, c, DateOnly, k);
    HavingNonEmpty(init, DateOnly, k);
    SummaryOne(c);
  }

  /** One turn of the grouping loop: the day's entry, or a new one whose
      first and last dates are the commit's, takes the commit, and a day
      seen for the first time joins the insertion order. */
  lemma DayStep(done: seq<Commit>, c: Commit, d: Day, order: seq<string>)
    requires var m := Tally(done);
             d == if DateOnly(c) in m then m[DateOnly(c)] else Day([], [], c.date, c.date, 0)
    requires order == Distinct(Keys(done, DateOnly)) + if DateOnly(c) in Tally(done) then [] else [DateOnly(c)]
    ensures Tally(done + [c])
            == Tally(done)[DateOnly(c) := Day(d.commits + [c], if c.repo in d.repos then d.repos else d.repos + [c.repo],
                                              d.firstCommit, c.date, d.totalCommits + 1)]
    ensures order == Distinct(Keys(done + [c], DateOnly))
  {
    TallyStep(done, c);
    AddCommitTo(Tally(done), c, d);
    OrderStep(done, c);
  }

  /** Adding a commit updates its day's entry, or a new one whose first and
      last dates are the commit's. */
  lemma AddCommitTo(days: map<string, Day>, c: Commit, d: Day)
    requires d == if DateOnly(c) in days then days[DateOnly(c)] else Day([], [], c.date, c.date, 0)
    ensures AddCommit(days, c)
            == days[DateOnly(c) := Day(d.commits + [c], if c.repo in d.repos then d.repos else d.repos + [c.repo],
                                       d.firstCommit, c.date, d.totalCommits + 1)]
  {
  }

  /** The grouping loop records a day in `order` when it starts its entry. */
  lemma OrderStep(done: seq<Commit>, c: Commit)
    ensures Distinct(Keys(done + [c], DateOnly))
            == Distinct(Keys(done, DateOnly)) + if DateOnly(c) in Tally(done) then [] else [DateOnly(c)]
  {
    TallyDomain(done, DateOnly(c));
    DistinctKeysSnoc(done, c, DateOnly);
  }

  lemma TallyStep(done: seq<Commit>, c: Commit)
    ensures Tally(done + [c]) == AddCommit(Tally(done), c)
  {
    assert (done + [c])[..|done|] == done;
  }

  // ---------------------------------------------------------------------------
  // Rendering one day

  /** `s.split(' ')[1]`, or `None` for the `IndexError` it raises when `s`
      holds no space. */
  function TimeOf(s: string): (r: Option<string>)
    ensures r.Some? <==> ' ' in s
  {
    SplitHasSecond(s, ' ');
    var parts := Split(s, ' ');
    if |parts| >= 2 then Some(parts[1]) else None
  }

  const Keywords: seq<string> := ["feat", "fix", "merge", "refactor", "chore"]

  /** `any(w in s for w in words)`. */
  function ContainsAny(s: string, words: seq<string>): (r: bool)
    ensures r <==> exists i :: 0 <= i < |words| && Contains(s, words[i])
    decreases |words|
  {
    if words == [] then false
    else
      assert forall i :: 1 <= i < |words| ==> words[1..][i - 1] == words[i];
      Contains(s, words[0]) || ContainsAny(s, words[1..])
  }

  /** A commit is significant when a keyword occurs anywhere in its
      lower-cased message. */
  predicate IsSignificant(c: Commit) {
    ContainsAny(Lower(c.message), Keywords)
  }

  /** The significant commits, in order. */
  function Significant(cs: seq<Commit>): (r: seq<Commit>)
    ensures |r| <= |cs|
    ensures forall c :: c in r <==> c in cs && IsSignificant(c)
    decreases |cs|
  {
    if cs == [] then []
    else
      var last := cs[|cs| - 1];
      assert cs == cs[..|cs| - 1] + [last];
      Significant(cs[..|cs| - 1]) + (if IsSignificant(last) then [last] else [])
  }

  /** A message longer than 60 characters becomes its first 57 and `...`. */
  function Truncate(m: string): string {
    if |m| > 60 then m[..57] + "..." else m
  }

  const KeyActivities := "🎯 **Key activities**:"
  const Maintenance := "📝 " + "**Maintenance/organization work** - Infrastructure, documentation, or minor updates"
  const HoursPrefix := "⏰ **Working hours**: "
  const ActivityPrefix := "   • "

  function Header(d: Day): string {
    "🔧 **" + NatToString(d.totalCommits) + " commits across " + NatToString(|d.repos|) + " repositories**"
  }

  function ReposLine(d: Day): string {
    "📂 **Active repos**: " + Join(SortBy(d.repos, Id), ", ")
  }

  /** The line of one key activity. */
  function ActivityLine(c: Commit): Option<string> {
    match TimeOf(c.date)
    case None => None
    case Some(t) => Some(ActivityPrefix + t + " - " + Truncate(c.message) + " (" + c.repo + ")")
  }

  /** The lines of `cs`, or `None` at the first date without a space. */
  function ActivityLines(cs: seq<Commit>): (r: Option<seq<string>>)
    ensures r.Some? ==> |r.value| == |cs|
    decreases |cs|
  {
    if cs == [] then Some([])
    else
      match ActivityLines(cs[..|cs| - 1])
      case None => None
      case Some(lines) =>
        match ActivityLine(cs[|cs| - 1])
        case None => None
        case Some(line) => Some(lines + [line])
  }

  /** The working-hours line, present when the first and last dates differ. */
  function HoursLines(d: Day): Option<seq<string>> {
    if d.firstCommit == d.lastCommit then Some([])
    else
      match (TimeOf(d.firstCommit), TimeOf(d.lastCommit))
      case (Some(s), Some(e)) => Some([HoursPrefix + s + " - " + e])
      case _ => None
  }

  /** The parts after the working hours: the key activities, at most five,
      or the maintenance line when there is none. */
  function Body(significant: seq<Commit>): Option<seq<string>> {
    if significant == [] then Some([Maintenance])
    else
      match ActivityLines(significant[..Min(5, |significant|)])
      case None => None
      case Some(lines) => Some([KeyActivities] + lines)
  }

  /** The `note_parts` of a day, or `None` for an `IndexError`. */
  function DayParts(d: Day): Option<seq<string>> {
    match (HoursLines(d), Body(Significant(d.commits)))
    case (Some(hours), Some(body)) => Some([Header(d), ReposLine(d)] + hours + body)
    case _ => None
  }

  /** `"\n".join(note_parts)`. */
  function DayText(d: Day): Option<string> {
    match DayParts(d)
    case None => None
    case Some(parts) => Some(Join(parts, "\n"))
  }

  /** The note of a day joins its header, repositories line, hours and
      body, and fails exactly when the hours or the body fail. */
  lemma DayTextParts(d: Day)
    ensures DayText(d).Some? <==> HoursLines(d).Some? && Body(Significant(d.commits)).Some?
    ensures DayText(d).Some? ==>
              (DayText(d).value
               == Join([Header(d), ReposLine(d)] + HoursLines(d).value + Body(Significant(d.commits)).value, "\n"))
  {
  }

  /** A day's parts never fail when every date involved holds a space. */
  lemma {:induction false} ActivityLinesDefined(cs: seq<Commit>)
    requires forall c :: c in cs ==> ' ' in c.date
    ensures ActivityLines(cs).Some?
    decreases |cs|
  {
    if cs != [] {
      ActivityLinesDefined(cs[..|cs| - 1]);
    }
  }

  /** Once a prefix of the key activities fails, all of them fail. */
  lemma {:induction false} ActivityLinesPrefixNone(cs: seq<Commit>, j: nat)
    requires j <= |cs| && ActivityLines(cs[..j]).None?
    ensures ActivityLines(cs).None?
    decreases |cs| - j
  {
    if j < |cs| {
      assert cs[..j + 1][..j] == cs[..j];
      ActivityLinesPrefixNone(cs, j + 1);
    } else {
      assert cs[..j] == cs;
    }
  }

  /** A message is cut to exactly 60 characters, its first 57 and `...`,
      when it is longer than that, and kept otherwise. */
  lemma TruncateMeans(m: string)
    ensures |Truncate(m)| <= 60
    ensures |m| <= 60 ==> Truncate(m) == m
    ensures |m| > 60 ==> |Truncate(m)| == 60 && Truncate(m)[..57] == m[..57] && Truncate(m)[57..] == "..."
  {
  }

  /** Every key-activity line starts with the bullet. */
  lemma {:induction false} ActivityLinePrefix(cs: seq<Commit>, k: nat)
    requires ActivityLines(cs).Some? && k < |cs|
    ensures StartsWith(ActivityLines(cs).value[k], ActivityPrefix)
    ensures |ActivityLines(cs).value[k]| > 0 && ActivityLines(cs).value[k][0] == ' '
    decreases |cs|
  {
    if k < |cs| - 1 {
      ActivityLinePrefix(cs[..|cs| - 1], k);
    }
  }

  /** The first two parts start with their own marks. */
  lemma HeadLead(d: Day)
    ensures |Header(d)| > 0 && Header(d)[0] == '🔧'
    ensures |ReposLine(d)| > 0 && ReposLine(d)[0] == '📂'
  {
  }

  /** The working-hours part is there exactly when the first and last dates
      differ. */
  lemma HoursLead(d: Day)
    requires HoursLines(d).Some?
    ensures var hours := HoursLines(d).value;
            && |hours| == (if d.firstCommit != d.lastCommit then 1 else 0)
            && (forall i :: 0 <= i < |hours| ==> StartsWith(hours[i], HoursPrefix))
            && Maintenance !in hours && KeyActivities !in hours
  {
    assert HoursPrefix[0] == '⏰' && KeyActivities[0] == '🎯' && Maintenance[0] == '📝';
  }

  /** The body is the maintenance line alone when nothing is significant,
      and otherwise the key-activities title and one bullet for each of the
      first five significant commits. */
  lemma BodyLead(significant: seq<Commit>)
    requires Body(significant).Some?
    ensures var body := Body(significant).value;
            && |body| == (if significant == [] then 1 else 1 + Min(5, |significant|))
            && body[0] == (if significant == [] then Maintenance else KeyActivities)
            && (forall i :: 1 <= i < |body| ==> |body[i]| > 0 && body[i][0] == ' ')
  {
    if significant != [] {
      var n := Min(5, |significant|);
      var body := Body(significant).value;
      forall i | 1 <= i < |body| ensures |body[i]| > 0 && body[i][0] == ' ' {
        ActivityLinePrefix(significant[..n], i - 1);
      }
    }
  }

  /** No part after the title of the body is a title or starts with the
      working-hours text. */
  lemma BodyMarks(significant: seq<Commit>)
    requires Body(significant).Some?
    ensures var body := Body(significant).value;
            && (Maintenance in body <==> significant == [])
            && (KeyActivities in body <==> significant != [])
            && forall i :: 0 <= i < |body| ==> !StartsWith(body[i], HoursPrefix)
  {
    var body := Body(significant).value;
    BodyLead(significant);
    assert HoursPrefix[0] == '⏰' && KeyActivities[0] == '🎯' && Maintenance[0] == '📝';
    assert forall i :: 1 <= i < |body| ==> body[i] != Maintenance && body[i] != KeyActivities;
  }

  /** The working-hours line is there exactly when the first and last dates
      of the day differ. */
  lemma HoursShownIff(d: Day)
    requires DayParts(d).Some?
    ensures var ps := DayParts(d).value;
            (exists i :: 0 <= i < |ps| && StartsWith(ps[i], HoursPrefix)) <==> d.firstCommit != d.lastCommit
  {
    var ps := DayParts(d).value;
    var hours := HoursLines(d).value;
    var body := Body(Significant(d.commits)).value;
    assert ps == [Header(d), ReposLine(d)] + hours + body;
    HeadLead(d);
    HoursLead(d);
    BodyMarks(Significant(d.commits));
    if d.firstCommit == d.lastCommit {
      assert HoursPrefix[0] == '⏰';
      forall i | 0 <= i < |ps| ensures !StartsWith(ps[i], HoursPrefix) {
        if i >= 2 {
          assert ps[i] == body[i - 2];
        }
      }
    } else {
      assert ps[2] == hours[0];
    }
  }

  /** The maintenance line is there exactly when no commit of the day is
      significant, and the key-activities title exactly when some is; the
      bullets list the first five significant commits, or all of them when
      there are fewer. */
  lemma MaintenanceIff(d: Day)
    requires DayParts(d).Some?
    ensures var ps := DayParts(d).value;
            var significant := Significant(d.commits);
            var h := if d.firstCommit != d.lastCommit then 1 else 0;
            && (Maintenance in ps <==> significant == [])
            && (KeyActivities in ps <==> significant != [])
            && |ps| == 2 + h + (if significant == [] then 1 else 1 + Min(5, |significant|))
  {
    var significant := Significant(d.commits);
    var ps := DayParts(d).value;
    var hours := HoursLines(d).value;
    var body := Body(significant).value;
    assert ps == [Header(d), ReposLine(d)] + hours + body;
    HeadLead(d);
    HoursLead(d);
    BodyLead(significant);
    BodyMarks(significant);
    assert KeyActivities[0] == '🎯' && Maintenance[0] == '📝';
    assert Maintenance !in [Header(d), ReposLine(d)] && KeyActivities !in [Header(d), ReposLine(d)];
  }

  /** A day whose dates all hold a space renders without error. */
  lemma DayTextDefined(d: Day)
    requires forall c :: c in d.commits ==> ' ' in c.date
    requires ' ' in d.firstCommit && ' ' in d.lastCommit
    ensures DayText(d).Some?
  {
    var significant := Significant(d.commits);
    var top := significant[..Min(5, |significant|)];
    ActivityLinesDefined(top);
  }

  // ---------------------------------------------------------------------------
  // The notes of all days

  /** An entry of the returned dict: a day and its note. */
  datatype Note = Note(date: string, text: string)

  function NoteDate(n: Note): string { n.date }

  /** What the `IndexError` says. */
  const IndexErrorMessage := "list index out of range"

  /** The notes of `dates` in order, each rendered by `render`, or `None`
      when one of them raises. */
  function NotesFrom(days: map<string, Day>, dates: seq<string>, render: Day -> Option<string>): (r: Option<seq<Note>>)
    requires forall k :: k in dates ==> k in days
    ensures r.Some? ==> |r.value| == |dates|
    decreases |dates|
  {
    if dates == [] then Some([])
    else
      var last := dates[|dates| - 1];
      match NotesFrom(days, dates[..|dates| - 1], render)
      case None => None
      case Some(notes) =>
        match render(days[last])
        case None => None
        case Some(text) => Some(notes + [Note(last, text)])
  }

  /** The days, in ascending order. */
  function SortedDays(commits: seq<Commit>): seq<string> {
    SortBy(Distinct(Keys(commits, DateOnly)), Id)
  }

  /** Every sorted day has an entry. */
  lemma SortedDaysInTally(commits: seq<Commit>)
    ensures forall k :: k in SortedDays(commits) ==> k in Tally(commits)
  {
    var ks := Distinct(Keys(commits, DateOnly));
    forall k | k in SortedDays(commits) ensures k in Tally(commits) {
      assert k in multiset(SortedDays(commits));
      assert k in multiset(ks);
      TallyDomain(commits, k);
    }
  }

  /** What `generate_daily_notes` returns: the note of every day in
      ascending date order, or the `IndexError` of the first day whose note
      needs a time that a date without a space does not have. */
  function GeneratedNotes(commits: seq<Commit>): Result<seq<Note>, string> {
    SortedDaysInTally(commits);
    match NotesFrom(Tally(commits), SortedDays(commits), DayText)
    case None => Failure(IndexErrorMessage)
    case Some(notes) => Success(notes)
  }

  /** Once a prefix of the days fails, the whole call fails. */
  lemma {:induction false} NotesFromPrefixNone(days: map<string, Day>, dates: seq<string>, render: Day -> Option<string>, j: nat)
    requires forall k :: k in dates ==> k in days
    requires j <= |dates| && NotesFrom(days, dates[..j], render).None?
    ensures NotesFrom(days, dates, render).None?
    decreases |dates| - j
  {
    if j < |dates| {
      assert dates[..j + 1][..j] == dates[..j];
      NotesFromPrefixNone(days, dates, render, j + 1);
    } else {
      assert dates[..j] == dates;
    }
  }

  /** One turn of the rendering loop: the next day's note is appended, or
      the whole call fails with it. */
  lemma NotesFromStep(days: map<string, Day>, dates: seq<string>, render: Day -> Option<string>, j: nat,
                      notes: seq<Note>)
    requires forall k :: k in dates ==> k in days
    requires j < |dates| && NotesFrom(days, dates[..j], render) == Some(notes)
    ensures render(days[dates[j]]).None? ==> NotesFrom(days, dates, render).None?
    ensures render(days[dates[j]]).Some? ==>
              NotesFrom(days, dates[..j + 1], render) == Some(notes + [Note(dates[j], render(days[dates[j]]).value)])
  {
    assert dates[..j + 1][..j] == dates[..j];
    if render(days[dates[j]]).None? {
      NotesFromPrefixNone(days, dates, render, j + 1);
    }
  }

  /** The note at each position is the rendering of that position's day. */
  lemma {:induction false} NotesFromAt(days: map<string, Day>, dates: seq<string>, render: Day -> Option<string>, i: nat)
    requires forall k :: k in dates ==> k in days
    requires NotesFrom(days, dates, render).Some? && i < |dates|
    ensures render(days[dates[i]]) == Some(NotesFrom(days, dates, render).value[i].text)
    ensures NotesFrom(days, dates, render).value[i].date == dates[i]
    decreases |dates|
  {
    if i < |dates| - 1 {
      NotesFromAt(days, dates[..|dates| - 1], render, i);
    }
  }

  /** The notes carry the dates they were made for, in order. */
  lemma NotesFromDates(days: map<string, Day>, dates: seq<string>, render: Day -> Option<string>)
    requires forall k :: k in dates ==> k in days
    requires NotesFrom(days, dates, render).Some?
    ensures Keys(NotesFrom(days, dates, render).value, NoteDate) == dates
  {
    var ks := Keys(NotesFrom(days, dates, render).value, NoteDate);
    forall i | 0 <= i < |dates|
      ensures ks[i] == dates[i]
    {
      NotesFromAt(days, dates, render, i);
    }
  }

  /** The days are strictly ascending and are exactly the days that occur. */
  lemma SortedDaysMeans(commits: seq<Commit>)
    ensures var days := SortedDays(commits);
            && (forall i, j :: 0 <= i < j < |days| ==> LessEq(days[i], days[j]) && days[i] != days[j])
            && (forall k :: k in days <==> k in Keys(commits, DateOnly))
  {
    var ks := Distinct(Keys(commits, DateOnly));
    var days := SortedDays(commits);
    NoDupsPermutation(ks, days);
    forall k ensures k in days <==> k in Keys(commits, DateOnly) {
      assert k in days <==> k in multiset(days);
      assert k in ks <==> k in multiset(ks);
    }
    forall i, j | 0 <= i < j < |days| ensures LessEq(days[i], days[j]) {
      assert Id(days[i]) == days[i] && Id(days[j]) == days[j];
    }
  }

  /** The dict has one note per day that occurs, in strictly ascending date
      order. */
  lemma GeneratedNotesDates(commits: seq<Commit>)
    requires GeneratedNotes(commits).Success?
    ensures var dates := Keys(GeneratedNotes(commits).value, NoteDate);
            && (forall i, j :: 0 <= i < j < |dates| ==> LessEq(dates[i], dates[j]) && dates[i] != dates[j])
            && (forall k :: k in dates <==> k in Keys(commits, DateOnly))
  {
    SortedDaysInTally(commits);
    NotesFromDates(Tally(commits), SortedDays(commits), DayText);
    SortedDaysMeans(commits);
  }

  /** Each note is the rendering of its day's entry: the day's commits in
      input order, their distinct repositories, the first and last dates in
      input order, and their number. */
  lemma GeneratedNoteText(commits: seq<Commit>, i: nat)
    requires GeneratedNotes(commits).Success? && i < |GeneratedNotes(commits).value|
    ensures var n := GeneratedNotes(commits).value[i];
            var h := Having(commits, DateOnly, n.date);
            |h| > 0 && Some(n.text) == DayText(Summary(h))
  {
    SortedDaysInTally(commits);
    var days := SortedDays(commits);
    NotesFromAt(Tally(commits), days, DayText, i);
    SortedDaysMeans(commits);
    assert days[i] in days;
    TallyValue(commits, days[i]);
  }

  /** Each note starts with the day's commit and repository counts. */
  lemma NoteHeader(commits: seq<Commit>, i: nat)
    requires GeneratedNotes(commits).Success? && i < |GeneratedNotes(commits).value|
    ensures var n := GeneratedNotes(commits).value[i];
            var h := Having(commits, DateOnly, n.date);
            StartsWith(n.text, "🔧 **" + NatToString(|h|) + " commits across "
                               + NatToString(|Distinct(Keys(h, RepoOf))|) + " repositories**")
  {
    GeneratedNoteText(commits, i);
    var n := GeneratedNotes(commits).value[i];
    var h := Having(commits, DateOnly, n.date);
    var d := Summary(h);
    JoinStartsWithFirst(DayParts(d).value, "\n");
  }

  /** When every date holds a space, as `git log` writes them, no note
      raises. */
  lemma GeneratedNotesDefined(commits: seq<Commit>)
    requires forall c :: c in commits ==> ' ' in c.date
    ensures GeneratedNotes(commits).Success?
  {
    SortedDaysInTally(commits);
    var days := SortedDays(commits);
    DaysDefined(commits, Tally(commits), days);
  }

  lemma {:induction false} DaysDefined(commits: seq<Commit>, days: map<string, Day>, dates: seq<string>)
    requires forall c :: c in commits ==> ' ' in c.date
    requires days == Tally(commits)
    requires forall k :: k in dates ==> k in days
    ensures NotesFrom(days, dates, DayText).Some?
    decreases |dates|
  {
    if dates != [] {
      var last := dates[|dates| - 1];
      DaysDefined(commits, days, dates[..|dates| - 1]);
      TallyDomain(commits, last);
      TallyValue(commits, last);
      var h := Having(commits, DateOnly, last);
      DayTextDefined(Summary(h));
    }
  }

  /** The note of a day whose only commit is significant but has no time
      in its date raises. */
  lemma DayWithoutTimeRaises(c: Commit)
    requires ' ' !in c.date && IsSignificant(c)
    ensures DayText(Summary([c])).None?
  {
    SummaryOne(c);
    assert Significant([c]) == [c] by {
      assert [c][..0] == [];
    }
    assert ActivityLines([c]).None? by {
      assert [c][..0] == [];
    }
    assert [c][..Min(5, 1)] == [c];
  }

  /** A single significant commit whose date has no time raises. */
  lemma SignificantWithoutTimeRaises(c: Commit)
    requires ' ' !in c.date && IsSignificant(c)
    ensures GeneratedNotes([c]).Failure?
  {
    SortedDaysOne(c);
    TallyOne(c);
    DayWithoutTimeRaises(c);
    NotesFromOneNone(Tally([c]), DateOnly(c), DayText);
  }

  /** One commit, one day. */
  lemma SortedDaysOne(c: Commit)
    ensures SortedDays([c]) == [DateOnly(c)]
  {
    var k := DateOnly(c);
    DistinctKeysSnoc([], c, DateOnly);
    assert [] + [c] == [c];
    assert Keys([c], DateOnly) == [k];
    assert Distinct(Keys([c], DateOnly)) == [k];
    assert |SortedDays([c])| == 1 && SortedDays([c])[0] in multiset([k]);
  }

  /** One commit, one entry holding only it. */
  lemma TallyOne(c: Commit)
    ensures Tally([c]) == map[DateOnly(c) := Summary([c])]
  {
    SummaryOne(c);
    TallyStep([], c);
    AddCommitTo(map[], c, Day([], [], c.date, c.date, 0));
    assert [] + [c] == [c] && [] + [c.repo] == [c.repo];
  }

  /** The note of a single date fails when rendering its entry fails. */
  lemma NotesFromOneNone(days: map<string, Day>, k: string, render: Day -> Option<string>)
    requires k in days && render(days[k]).None?
    ensures NotesFrom(days, [k], render).None?
  {
    assert [k][..0] == [];
  }

  // ---------------------------------------------------------------------------
  // The saved metadata

  /** The `metadata` dict `save_analysis` writes. */
  datatype Metadata = Metadata(totalCommits: nat, totalRepos: nat, activeDays: nat,
                               start: Option<string>, end: Option<string>)

  function AnalysisMetadata(commits: seq<Commit>, notes: seq<Note>): Metadata {
    Metadata(|commits|, |set c | c in commits :: c.repo|, |notes|,
             if commits != [] then Some(commits[0].date) else None,
             if commits != [] then Some(commits[|commits| - 1].date) else None)
  }

  /** The repository count is the number of distinct repository names. */
  lemma TotalRepos(commits: seq<Commit>, notes: seq<Note>)
    ensures AnalysisMetadata(commits, notes).totalRepos == |Distinct(Keys(commits, RepoOf))|
  {
    var ks := Keys(commits, RepoOf);
    KeysMembers(commits, RepoOf);
    assert (set c | c in commits :: c.repo) == (set x | x in ks) by {
      forall x | x in ks ensures x in (set c | c in commits :: c.repo) {
        var i :| 0 <= i < |commits| && RepoOf(commits[i]) == x;
        assert commits[i] in commits;
      }
    }
    DistinctCard(ks);
  }

  /** For the sorted commits of a run and their notes: the metadata counts
      every commit and every day, and its date range runs from the earliest
      to the latest date. */
  lemma AnalyzedMetadata(collected: seq<Commit>)
    requires GeneratedNotes(SortBy(collected, DateOf)).Success?
    ensures var commits := SortBy(collected, DateOf);
            var m := AnalysisMetadata(commits, GeneratedNotes(commits).value);
            && m.totalCommits == |collected|
            && m.activeDays == |Distinct(Keys(commits, DateOnly))|
            && (collected == [] <==> m.start.None?) && (collected == [] <==> m.end.None?)
            && (collected != [] ==>
                  && (exists c :: c in collected && c.date == m.start.value)
                  && (exists c :: c in collected && c.date == m.end.value)
                  && (forall c :: c in collected ==> LessEq(m.start.value, c.date) && LessEq(c.date, m.end.value)))
  {
    var commits := SortBy(collected, DateOf);
    var notes := GeneratedNotes(commits).value;
    SortedDaysInTally(commits);
    var days := SortedDays(commits);
    if collected != [] {
      SortByBounds(collected, DateOf);
    }
  }

  // ---------------------------------------------------------------------------
  // The analyzer object

  class Analyzer {
    const reposDir: string
    var repositories: seq<string>

    /** `GitHistoryAnalyzer(repos_dir)`: an absent or empty directory falls
        back to the default; no repository is known yet. */
    constructor(reposDir: Option<string>)
      ensures this.reposDir == if reposDir.Some? && reposDir.value != "" then reposDir.value else DefaultReposDir
      ensures repositories == []
    {
      this.reposDir := if reposDir.Some? && reposDir.value != "" then reposDir.value else DefaultReposDir;
      repositories := [];
    }

    /** `discover_repositories`: appends, pattern by pattern, every glob hit
        that holds `.git`, and returns the whole list. A second call appends
        the same paths again. */
    method DiscoverRepositories(glob: Glob, hasGitDir: string -> bool) returns (found: seq<string>)
      modifies this
      ensures repositories == old(repositories) + Found(reposDir, RepoPatterns, glob, hasGitDir)
      ensures found == repositories
    {
      ghost var done: seq<string> := [];
      var p := 0;
      while p < |RepoPatterns|
        invariant 0 <= p <= |RepoPatterns|
        invariant done == RepoPatterns[..p]
        invariant repositories == old(repositories) + Found(reposDir, done, glob, hasGitDir)
      {
        var pattern := RepoPatterns[p];
        FoundStep(old(repositories), reposDir, done, pattern, glob, hasGitDir);
        AddRepositories(glob(reposDir, pattern), hasGitDir);
        PrefixSnoc(RepoPatterns, p);
        done := done + [pattern];
        p := p + 1;
      }
      assert done == RepoPatterns;
      found := repositories;
    }

    /** The inner loop of `discover_repositories`: appends the glob hits of
        one pattern that hold `.git`. */
    method AddRepositories(hits: seq<string>, hasGitDir: string -> bool)
      modifies this
      ensures repositories == old(repositories) + WithGitDir(hits, hasGitDir)
    {
      var i := 0;
      while i < |hits|
        invariant 0 <= i <= |hits|
        invariant repositories == old(repositories) + WithGitDir(hits[..i], hasGitDir)
      {
        var repoPath := hits[i];
        WithGitDirStep(old(repositories), hits, i, hasGitDir);
        if hasGitDir(repoPath) {
          repositories := repositories + [repoPath];
        }
        i := i + 1;
      }
      assert hits[..i] == hits;
    }

    /** `get_git_commits`: one commit per non-empty line with at least three
        `|`, in output order, tagged with the path's basename; a failed call
        gives no commits. */
    method GetGitCommits(repoPath: string, output: Result<string, string>) returns (commits: seq<Commit>)
      ensures commits == CommitsOf(repoPath, output)
    {
      commits := [];
      if output.Failure? {
        return;
      }
      var lines := Split(Strip(output.value), '\n');
      var repo := AfterLast(repoPath, '/');
      var i := 0;
      while i < |lines|
        invariant 0 <= i <= |lines|
        invariant commits == ParseLines(lines[..i], repo)
      {
        var line := lines[i];
        if line != "" {
          var parts := SplitN(line, '|', MaxSplit);
          ParseLinesStep(lines, i, repo, parts);
          if |parts| >= 4 {
            commits := commits + [Commit(parts[0], parts[1], parts[2], parts[3], repo)];
          }
        } else {
          ParseLinesStep(lines, i, repo, []);
        }
        i := i + 1;
      }
      assert lines[..i] == lines;
    }

    /** `analyze_all_repos`: discovers only when no repository is known yet,
        then collects every repository's commits in list order and sorts
        them stably by date string. */
    method AnalyzeAllRepos(startDate: string, endDate: string, glob: Glob, hasGitDir: string -> bool, gitLog: GitLog)
      returns (allCommits: seq<Commit>)
      modifies this
      ensures old(repositories) != [] ==> repositories == old(repositories)
      ensures old(repositories) == [] ==> repositories == Found(reposDir, RepoPatterns, glob, hasGitDir)
      ensures allCommits == SortBy(AllCommits(repositories, startDate, endDate, gitLog), DateOf)
    {
      allCommits := [];
      if repositories == [] {
        var _ := DiscoverRepositories(glob, hasGitDir);
      }
      ghost var discovered := repositories;
      var i := 0;
      while i < |repositories|
        invariant 0 <= i <= |repositories|
        invariant repositories == discovered
        invariant allCommits == AllCommits(repositories[..i], startDate, endDate, gitLog)
      {
        var repoPath := repositories[i];
        var commits := GetGitCommits(repoPath, gitLog(repoPath, startDate, endDate));
        PrefixSnoc(repositories, i);
        assert repositories[..i + 1][..i] == repositories[..i];
        allCommits := allCommits + commits;
        i := i + 1;
      }
      assert repositories[..i] == repositories;
      allCommits := SortBy(allCommits, DateOf);
    }

    /** The body of the rendering loop of `generate_daily_notes` for one
        day: the header, the repositories, the working hours when the first
        and last dates differ, then at most five key activities or the
        maintenance line; `None` when a needed time is missing. */
    method RenderDay(d: Day) returns (text: Option<string>)
      ensures text == DayText(d)
    {
      DayTextParts(d);
      var significant := Significant(d.commits);
      var parts := [Header(d), ReposLine(d)];
      ghost var head := parts;
      if d.firstCommit != d.lastCommit {
        var startTime := TimeOf(d.firstCommit);
        var endTime := TimeOf(d.lastCommit);
        if startTime.None? || endTime.None? {
          return None;
        }
        parts := parts + [HoursPrefix + startTime.value + " - " + endTime.value];
      }
      assert HoursLines(d) == Some(parts[|head|..]);
      ghost var hours := parts;
      if significant != [] {
        var lines := KeyActivityLines(significant[..Min(5, |significant|)]);
        if lines.None? {
          return None;
        }
        parts := parts + ([KeyActivities] + lines.value);
      }
      if significant == [] {
        parts := parts + [Maintenance];
      }
      assert Body(significant) == Some(parts[|hours|..]);
      assert parts == head + hours[|head|..] + parts[|hours|..];
      text := Some(Join(parts, "\n"));
    }

    /** The loop over the top five significant commits: one line each, with
        the time, the message cut to 60 characters and the repository. */
    method KeyActivityLines(top: seq<Commit>) returns (lines: Option<seq<string>>)
      ensures lines == ActivityLines(top)
    {
      var done: seq<string> := [];
      var i := 0;
      while i < |top|
        invariant 0 <= i <= |top|
        invariant ActivityLines(top[..i]) == Some(done)
      {
        var commit := top[i];
        assert top[..i + 1][..i] == top[..i];
        var timeOnly := TimeOf(commit.date);
        if timeOnly.None? {
          ActivityLinesPrefixNone(top, i + 1);
          return None;
        }
        var message := commit.message;
        if |message| > 60 {
          message := message[..57] + "...";
        }
        done := done + [ActivityPrefix + timeOnly.value + " - " + message + " (" + commit.repo + ")"];
        i := i + 1;
      }
      assert top[..i] == top;
      lines := Some(done);
    }

    /** `generate_daily_notes`: groups the commits by day, then renders the
        days in ascending date order. */
    method GenerateDailyNotes(commits: seq<Commit>) returns (r: Result<seq<Note>, string>)
      ensures r == GeneratedNotes(commits)
    {
      var dailyNotes, order := GroupByDay(commits);
      var dates := SortBy(order, Id);
      SortedDaysInTally(commits);
      var notes := RenderDays(dailyNotes, dates);
      if notes.None? {
        return Failure(IndexErrorMessage);
      }
      r := Success(notes.value);
    }

    /** The grouping loop of `generate_daily_notes`. The dict's insertion
        order is kept in `order`, since the days are read back through it.
        Starting a day's entry and then updating it is done here as one
        update of the entry, which leaves the same dict. */
    method GroupByDay(commits: seq<Commit>) returns (dailyNotes: map<string, Day>, order: seq<string>)
      ensures dailyNotes == Tally(commits)
      ensures order == Distinct(Keys(commits, DateOnly))
    {
      dailyNotes := map[];
      order := [];
      ghost var done: seq<Commit> := [];
      var i := 0;
      while i < |commits|
        invariant 0 <= i <= |commits|
        invariant done == commits[..i]
        invariant dailyNotes == Tally(done)
        invariant order == Distinct(Keys(done, DateOnly))
      {
        var commit := commits[i];
        var dateOnly := DateOnly(commit);
        PrefixSnoc(commits, i);
        var d: Day;
        if dateOnly in dailyNotes {
          d := dailyNotes[dateOnly];
        } else {
          d := Day([], [], commit.date, commit.date, 0);
          order := order + [dateOnly];
        }
        DayStep(done, commit, d, order);
        dailyNotes := dailyNotes[dateOnly := Day(d.commits + [commit],
                                                 if commit.repo in d.repos then d.repos else d.repos + [commit.repo],
                                                 d.firstCommit, commit.date, d.totalCommits + 1)];
        done := done + [commit];
        i := i + 1;
      }
      assert done == commits;
    }

    /** The rendering loop of `generate_daily_notes` over the sorted days. */
    method RenderDays(dailyNotes: map<string, Day>, dates: seq<string>) returns (notes: Option<seq<Note>>)
      requires forall k :: k in dates ==> k in dailyNotes
      ensures notes == NotesFrom(dailyNotes, dates, DayText)
    {
      var generated: seq<Note> := [];
      var j := 0;
      while j < |dates|
        invariant 0 <= j <= |dates|
        invariant NotesFrom(dailyNotes, dates[..j], DayText) == Some(generated)
      {
        var date := dates[j];
        var text := RenderDay(dailyNotes[date]);
        NotesFromStep(dailyNotes, dates, DayText, j, generated);
        if text.None? {
          return None;
        }
        generated := generated + [Note(date, text.value)];
        j := j + 1;
      }
      assert dates[..j] == dates;
      notes := Some(generated);
    }
  }
}
