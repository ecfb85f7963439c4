/**
 * `HerokuRelease::Task`: the rake tasks `push`, `tag`, `log`, `current_release`,
 * `previous_release`, `pending` and `rollback`, and the configuration they read.
 *
 * What a task does to the outside world is recorded as a log of events: a shell
 * command run through backticks (whose stripped output is then printed), a value
 * printed with `puts`, a prompt printed with `print`, a file written. The
 * environment a task sees (`ENV['COMMENT']`, the line typed on standard input,
 * the clock, the output of `git tag` and `git tag -n`) is a parameter.
 */
module HerokuRelease {
  import opened Wrappers
  import opened Text
  import opened Releases
  import opened Changelog
  import opened ReleaseName
  import opened Quoting
  import opened Sequences

  /** `HerokuRelease.config`; `nil` settings are `None`. */
  datatype Config = Config(
    herokuRemote: string,
    promptForComments: bool,
    versionFilePath: Option<string>,
    changelogPath: Option<string>)

  /** The configuration the gem starts with. */
  const Default: Config := Config("heroku", true, None, None)

  /** What `puts` is given: a string, an array (one line per element) or `nil` (an empty line). */
  datatype Shown = Line(text: string) | Each(items: seq<string>) | Blank

  datatype Event =
    | Run(command: string)
    | Say(shown: Shown)
    | Ask(prompt: string)
    | Write(path: string, content: string)

  /** What a task reads from its surroundings. */
  datatype Env = Env(
    comment: Option<string>,
    stdinLine: Option<string>,
    now: UtcTime,
    gitTags: string,
    gitTagsAnnotated: string)

  /** The command an event runs, if any. */
  function RunOf(e: Event): seq<string>
  {
    if e.Run? then [e.command] else []
  }

  /** The file an event writes, with its content, if any. */
  function WriteOf(e: Event): seq<(string, string)>
  {
    if e.Write? then [(e.path, e.content)] else []
  }

  /** The shell commands of a log, in the order they ran. */
  function Commands(log: seq<Event>): (r: seq<string>)
    ensures |r| <= |log|
  {
    if log == [] then [] else RunOf(log[0]) + Commands(log[1..])
  }

  /** The files a log writes, with their contents, in order. */
  function Writes(log: seq<Event>): (r: seq<(string, string)>)
    ensures |r| <= |log|
  {
    if log == [] then [] else WriteOf(log[0]) + Writes(log[1..])
  }

  /** A command is among the commands of a log exactly when the log runs it. */
  lemma {:induction false} CommandsMembers(log: seq<Event>, c: string)
    ensures c in Commands(log) <==> Run(c) in log
  {
    if log != [] {
      CommandsMembers(log[1..], c);
      assert log == [log[0]] + log[1..];
    }
  }

  /** A file and content are among the writes of a log exactly when the log writes them. */
  lemma {:induction false} WritesMembers(log: seq<Event>, path: string, content: string)
    ensures (path, content) in Writes(log) <==> Write(path, content) in log
  {
    if log != [] {
      WritesMembers(log[1..], path, content);
      assert log == [log[0]] + log[1..];
    }
  }

  lemma CommandsConcat(a: seq<Event>, b: seq<Event>)
    ensures Commands(a + b) == Commands(a) + Commands(b)
    ensures Writes(a + b) == Writes(a) + Writes(b)
  {
    RunsConcat(a, b);
    WritesConcat(a, b);
  }

  lemma {:induction false} RunsConcat(a: seq<Event>, b: seq<Event>)
    ensures Commands(a + b) == Commands(a) + Commands(b)
  {
    if a == [] {
      assert a + b == b;
    } else {
      assert (a + b)[1..] == a[1..] + b;
      RunsConcat(a[1..], b);
      Assoc(RunOf(a[0]), Commands(a[1..]), Commands(b));
    }
  }

  lemma {:induction false} WritesConcat(a: seq<Event>, b: seq<Event>)
    ensures Writes(a + b) == Writes(a) + Writes(b)
  {
    if a == [] {
      assert a + b == b;
    } else {
      assert (a + b)[1..] == a[1..] + b;
      WritesConcat(a[1..], b);
      Assoc(WriteOf(a[0]), Writes(a[1..]), Writes(b));
    }
  }

  lemma Projections1(a: Event)
    ensures Commands([a]) == RunOf(a) && Writes([a]) == WriteOf(a)
  {
    assert [a][1..] == [];
  }

  lemma Projections2(a: Event, b: Event)
    ensures Commands([a, b]) == RunOf(a) + RunOf(b)
    ensures Writes([a, b]) == WriteOf(a) + WriteOf(b)
  {
    assert [a, b] == [a] + [b];
    CommandsConcat([a], [b]);
    Projections1(a);
    Projections1(b);
  }

  lemma Projections3(a: Event, b: Event, c: Event)
    ensures Commands([a, b, c]) == RunOf(a) + RunOf(b) + RunOf(c)
    ensures Writes([a, b, c]) == WriteOf(a) + WriteOf(b) + WriteOf(c)
  {
    assert [a, b, c] == [a, b] + [c];
    CommandsConcat([a, b], [c]);
    Projections2(a, b);
    Projections1(c);
  }

  lemma Projections4(a: Event, b: Event, c: Event, d: Event)
    ensures Commands([a, b, c, d]) == RunOf(a) + RunOf(b) + RunOf(c) + RunOf(d)
    ensures Writes([a, b, c, d]) == WriteOf(a) + WriteOf(b) + WriteOf(c) + WriteOf(d)
  {
    assert [a, b, c, d] == [a, b, c] + [d];
    CommandsConcat([a, b, c], [d]);
    Projections3(a, b, c);
    Projections1(d);
  }

  // ---------------------------------------------------------------------------
  // What each task does, as a function of the configuration and the environment
  // ---------------------------------------------------------------------------

  function PushCommand(config: Config): string
  {
    "git push " + config.herokuRemote + " master"
  }

  /** `push` runs one command, the push of `master` to the remote, and writes nothing. */
  function PushEvents(config: Config): (r: seq<Event>)
    ensures Commands(r) == ["git push " + config.herokuRemote + " master"]
    ensures Writes(r) == []
  {
    var say, run := Say(Line("Deploying site to Heroku ...")), Run(PushCommand(config));
    Projections2(say, run);
    [say, run]
  }

  const Prompt: string := "Required - please enter a release comment: "

  /**
   * `tag_comment`: `ENV['COMMENT']` when set, else the stripped line typed after
   * the prompt, else `Tagged release`. `None` when standard input is at its end:
   * `gets` gives `nil` and `strip` raises, which ends the rake run.
   */
  function CommentOf(config: Config, env: Env): (r: Option<string>)
    ensures env.comment.Some? ==> r == env.comment
    ensures env.comment.None? && config.promptForComments && env.stdinLine.Some? ==>
      r == Some(Strip(env.stdinLine.value))
    ensures env.comment.None? && !config.promptForComments ==> r == Some("Tagged release")
    ensures r.None? <==> env.comment.None? && config.promptForComments && env.stdinLine.None?
  {
    if env.comment.Some? then env.comment
    else if config.promptForComments then
      (if env.stdinLine.Some? then Some(Strip(env.stdinLine.value)) else None)
    else Some("Tagged release")
  }

  /** The prompt is printed exactly when no comment is set and prompting is on. */
  function CommentEvents(config: Config, env: Env): seq<Event>
  {
    if env.comment.None? && config.promptForComments then [Ask(Prompt)] else []
  }

  function VersionFileEvents(path: string, name: string): seq<Event>
  {
    [Write(path, name), Run("git add " + path)]
  }

  function ChangelogFileEvents(path: string, env: Env): seq<Event>
  {
    [Write(path, FileContent(env.gitTagsAnnotated)), Run("git add " + path)]
  }

  function CommitCommand(name: string, quoted: string): string
  {
    "git commit -m '" + name + ": " + quoted + "'"
  }

  function CommitEvents(name: string, quoted: string): seq<Event>
  {
    [Run(CommitCommand(name, quoted)), Run("git push origin master")]
  }

  /** `tag` on a configured version file: announce it, write the release name into it, add it. */
  function VersionFileStep(config: Config, name: string): seq<Event>
  {
    if config.versionFilePath.Some? then
      [Say(Line("Updating version file at " + config.versionFilePath.value))]
      + VersionFileEvents(config.versionFilePath.value, name)
    else []
  }

  /** `tag` on a configured changelog: announce it, write it, add it. */
  function ChangelogStep(config: Config, env: Env): seq<Event>
  {
    if config.changelogPath.Some? then
      [Say(Line("Updating " + config.changelogPath.value))]
      + ChangelogFileEvents(config.changelogPath.value, env)
    else []
  }

  /** The part of `tag` that updates and commits the configured files. */
  function FileEvents(config: Config, env: Env, name: string, quoted: string): seq<Event>
  {
    if config.versionFilePath.Some? || config.changelogPath.Some? then
      VersionFileStep(config, name) + ChangelogStep(config, env) + CommitEvents(name, quoted)
    else []
  }

  function TagCommand(name: string, quoted: string): string
  {
    "git tag -a " + name + " -m '" + quoted + "'"
  }

  function TaggingEvents(config: Config, name: string, quoted: string): seq<Event>
  {
    [Say(Line("Tagging release as '" + name + "'")),
     Run(TagCommand(name, quoted)),
     Run("git push --tags origin"),
     Run("git push --tags " + config.herokuRemote)]
  }

  /**
   * `tag`: only the prompt when no comment can be had; otherwise it always ends
   * with the tag command and the pushes of the tags to origin and then to the remote.
   */
  function TagEvents(config: Config, env: Env): (r: seq<Event>)
    ensures CommentOf(config, env).None? <==> r == [Ask(Prompt)]
    ensures CommentOf(config, env).Some? ==>
              |r| >= 4
              && r[|r| - 3] == Run(TagCommand(ReleaseNameOf(env.now), SingleQuote(CommentOf(config, env).value)))
              && r[|r| - 2] == Run("git push --tags origin")
              && r[|r| - 1] == Run("git push --tags " + config.herokuRemote)
  {
    var name := ReleaseNameOf(env.now);
    match CommentOf(config, env)
    case None =>
      assert CommentEvents(config, env) == [Ask(Prompt)];
      CommentEvents(config, env) + []
    case Some(c) =>
      var pre := CommentEvents(config, env) + FileEvents(config, env, name, SingleQuote(c));
      var tagging := TaggingEvents(config, name, SingleQuote(c));
      var r := pre + tagging;
      assert |r| >= 4 && r[|r| - 3] == tagging[1] && r[|r| - 2] == tagging[2] && r[|r| - 1] == tagging[3];
      r
  }

  function LogEvents(env: Env): seq<Event>
  {
    [Say(Line("\n" + ChangelogText(env.gitTagsAnnotated)))]
  }

  function CurrentReleaseEvents(env: Env): seq<Event>
  {
    match Current(ReleasesOf(env.gitTags))
    case Some(c) => [Say(Line(c))]
    case None => [Say(Blank)]
  }

  function PreviousReleaseEvents(env: Env): seq<Event>
  {
    match Previous(ReleasesOf(env.gitTags))
    case Some(p) => [Say(Line(p))]
    case None => [Say(Line("no previous release found"))]
  }

  /**
   * `git log <current>..HEAD`: the commits after the latest release. With no
   * release the interpolated `nil` is empty, which leaves `git log ..HEAD`.
   */
  function PendingCommand(env: Env): (r: string)
    ensures Current(ReleasesOf(env.gitTags)).None? ==> r == "git log ..HEAD"
    ensures Current(ReleasesOf(env.gitTags)).Some? ==>
              var c := Current(ReleasesOf(env.gitTags)).value;
              r == "git log " + c + "..HEAD"
              && forall x :: x in Fields(env.gitTags) && IsReleaseLine(x) ==> LessEq(x, c)
  {
    match Current(ReleasesOf(env.gitTags))
    case Some(c) =>
      CurrentIsLatest(env.gitTags);
      "git log " + c + "..HEAD"
    case None => "git log ..HEAD"
  }

  function RemoveTagEvents(config: Config, tagName: string): seq<Event>
  {
    [Run("git tag -d " + tagName),
     Run("git push " + config.herokuRemote + " :refs/tags/" + tagName),
     Run("git push origin :refs/tags/" + tagName)]
  }

  /** `rollback` runs a command exactly when there is a previous release; otherwise it only prints. */
  function RollbackEvents(config: Config, env: Env): (r: seq<Event>)
    ensures Previous(ReleasesOf(env.gitTags)).None? <==> forall e :: e in r ==> e.Say?
  {
    var rs := ReleasesOf(env.gitTags);
    match Previous(rs)
    case Some(p) =>
      var c := rs[|rs| - 1];
      var r := [Say(Line("Rolling back to '" + p + "' ...")),
                Run("git push -f " + config.herokuRemote + " " + p + ":master"),
                Say(Line("Removing rolled back release tag '" + c + "' ..."))]
               + RemoveTagEvents(config, c)
               + [Say(Line("Rollback completed"))];
      assert r[1].Run? && r[1] in r;
      r
    case None =>
      [Say(Line("No release tags found - cannot do rollback")), Say(Each(rs))]
  }

  /** Three steps that each extend the log extend it by their concatenation. */
  lemma TagEventsParts(config: Config, env: Env, c: string)
    requires CommentOf(config, env) == Some(c)
    ensures TagEvents(config, env)
            == CommentEvents(config, env) + FileEvents(config, env, ReleaseNameOf(env.now), SingleQuote(c))
               + TaggingEvents(config, ReleaseNameOf(env.now), SingleQuote(c))
  {
    var name, quoted := ReleaseNameOf(env.now), SingleQuote(c);
    Assoc(CommentEvents(config, env), FileEvents(config, env, name, quoted), TaggingEvents(config, name, quoted));
  }


  lemma TagEventsAborted(config: Config, env: Env)
    requires CommentOf(config, env) == None
    ensures TagEvents(config, env) == CommentEvents(config, env)
  {
    assert TagEvents(config, env) == CommentEvents(config, env) + [];
  }

  /** The log of a rollback, put together from its steps. */
  lemma RollbackLog(config: Config, env: Env, c: string, p: string, start: seq<Event>,
                    l1: seq<Event>, l2: seq<Event>, l3: seq<Event>, l4: seq<Event>, l5: seq<Event>)
    requires Current(ReleasesOf(env.gitTags)) == Some(c)
    requires Previous(ReleasesOf(env.gitTags)) == Some(p)
    requires l1 == start + [Say(Line("Rolling back to '" + p + "' ..."))]
    requires l2 == l1 + [Run("git push -f " + config.herokuRemote + " " + p + ":master")]
    requires l3 == l2 + [Say(Line("Removing rolled back release tag '" + c + "' ..."))]
    requires l4 == l3 + RemoveTagEvents(config, c)
    requires l5 == l4 + [Say(Line("Rollback completed"))]
    ensures l5 == start + RollbackEvents(config, env)
  {
    var s1 := Say(Line("Rolling back to '" + p + "' ..."));
    var r1 := Run("git push -f " + config.herokuRemote + " " + p + ":master");
    var s2 := Say(Line("Removing rolled back release tag '" + c + "' ..."));
    var s3 := Say(Line("Rollback completed"));
    Chain(start, [s1], [r1], [s2], l1, l2, l3);
    Chain(start, [s1] + [r1] + [s2], RemoveTagEvents(config, c), [s3], l3, l4, l5);
    RollbackEventsParts(config, env, c, p);
    assert [s1] + [r1] + [s2] == [s1, r1, s2];
  }

  lemma RollbackEventsParts(config: Config, env: Env, c: string, p: string)
    requires Current(ReleasesOf(env.gitTags)) == Some(c)
    requires Previous(ReleasesOf(env.gitTags)) == Some(p)
    ensures RollbackEvents(config, env)
            == [Say(Line("Rolling back to '" + p + "' ...")),
                Run("git push -f " + config.herokuRemote + " " + p + ":master"),
                Say(Line("Removing rolled back release tag '" + c + "' ..."))]
               + RemoveTagEvents(config, c)
               + [Say(Line("Rollback completed"))]
  {
  }

  // ---------------------------------------------------------------------------
  // Class Task
  // ---------------------------------------------------------------------------

  class Task {
    const config: Config
    const env: Env
    /** Everything this Task has done so far. */
    var log: seq<Event>
    /** `@releases`, filled on first use. */
    var memo: Option<seq<string>>

    ghost predicate Valid()
      reads this
    {
      memo.Some? ==> memo.value == ReleasesOf(env.gitTags)
    }

    constructor(config: Config, env: Env)
      ensures Valid()
      ensures this.config == config && this.env == env
      ensures log == [] && memo == None
    {
      this.config := config;
      this.env := env;
      log := [];
      memo := None;
    }

    /** `output`: `puts`. */
    method Output(s: Shown)
      modifies this
      ensures log == old(log) + [Say(s)] && memo == old(memo)
    {
      log := log + [Say(s)];
    }

    /** `execute`: run the command in a shell and print its stripped output. */
    method Execute(command: string)
      modifies this
      ensures log == old(log) + [Run(command)] && memo == old(memo)
    {
      log := log + [Run(command)];
    }

    /** `releases`: computed once, then the same list on every call. */
    method Releases() returns (rs: seq<string>)
      requires Valid()
      modifies this
      ensures Valid() && memo == Some(rs)
      ensures rs == ReleasesOf(env.gitTags)
      ensures log == old(log)
    {
      if memo.None? {
        memo := Some(ReleasesOf(env.gitTags));
      }
      rs := memo.value;
    }

    method CurrentReleaseVersion() returns (r: Option<string>)
      requires Valid()
      modifies this
      ensures Valid() && memo.Some? && log == old(log)
      ensures r == Current(ReleasesOf(env.gitTags))
    {
      var rs := Releases();
      r := if rs == [] then None else Some(rs[|rs| - 1]);
    }

    method PreviousReleaseVersion() returns (r: Option<string>)
      requires Valid()
      modifies this
      ensures Valid() && memo.Some? && log == old(log)
      ensures r == Previous(ReleasesOf(env.gitTags))
    {
      var rs := Releases();
      r := if |rs| >= 2 then Some(rs[|rs| - 2]) else None;
    }

    method Push()
      requires Valid()
      modifies this
      ensures Valid() && memo == old(memo)
      ensures log == old(log) + PushEvents(config)
    {
      Output(Line("Deploying site to Heroku ..."));
      Execute("git push " + config.herokuRemote + " master");
    }

    /** `tag_comment`: `None` stands for the exception `nil.strip` raises. */
    method TagComment() returns (r: Option<string>)
      requires Valid()
      modifies this
      ensures Valid() && memo == old(memo)
      ensures r == CommentOf(config, env)
      ensures log == old(log) + CommentEvents(config, env)
    {
      if env.comment.Some? {
        return env.comment;
      }
      if config.promptForComments {
        log := log + [Ask(Prompt)];
        match env.stdinLine
        case Some(line) => r := Some(Strip(line));
        case None => r := None;
      } else {
        r := Some("Tagged release");
      }
    }

    method UpdateVersionFile(name: string)
      requires Valid() && config.versionFilePath.Some?
      modifies this
      ensures Valid() && memo == old(memo)
      ensures log == old(log) + VersionFileEvents(config.versionFilePath.value, name)
    {
      log := log + [Write(config.versionFilePath.value, name)];
      Execute("git add " + config.versionFilePath.value);
    }

    method UpdateChangelog()
      requires Valid() && config.changelogPath.Some?
      modifies this
      ensures Valid() && memo == old(memo)
      ensures log == old(log) + ChangelogFileEvents(config.changelogPath.value, env)
    {
      log := log + [Write(config.changelogPath.value, Warning + ChangelogText(env.gitTagsAnnotated))];
      Execute("git add " + config.changelogPath.value);
    }

    method Commit(name: string, quoted: string)
      requires Valid()
      modifies this
      ensures Valid() && memo == old(memo)
      ensures log == old(log) + CommitEvents(name, quoted)
    {
      Execute("git commit -m '" + name + ": " + quoted + "'");
      Execute("git push origin master");
    }

    /** `tag`; `completed` is false when `tag` stopped at the comment prompt. */
    method Tag() returns (completed: bool)
      requires Valid()
      modifies this
      ensures Valid() && memo == old(memo)
      ensures completed <==> CommentOf(config, env).Some?
      ensures log == old(log) + TagEvents(config, env)
    {
      var name := ReleaseNameOf(env.now);
      var comment := TagComment();
      if comment.None? {
        TagEventsAborted(config, env);
        return false;
      }
      var quoted := SingleQuote(comment.value);
      ghost var prompted := log;
      if config.versionFilePath.Some? || config.changelogPath.Some? {
        UpdateFiles(name, quoted);
      } else {
        AppendEmpty(log);
      }
      ghost var filed := log;
      TagRelease(name, quoted);
      TagEventsParts(config, env, comment.value);
      Chain(old(log), CommentEvents(config, env), FileEvents(config, env, name, quoted), TaggingEvents(config, name, quoted),
            prompted, filed, log);
      completed := true;
    }

    /** The end of `tag`: announce the release, tag it, push the tags to origin and to the Heroku remote. */
    method TagRelease(name: string, quoted: string)
      requires Valid()
      modifies this
      ensures Valid() && memo == old(memo)
      ensures log == old(log) + TaggingEvents(config, name, quoted)
    {
      Output(Line("Tagging release as '" + name + "'"));
      Execute("git tag -a " + name + " -m '" + quoted + "'");
      Execute("git push --tags origin");
      Execute("git push --tags " + config.herokuRemote);
    }

    /** The `if` of `tag` that updates the configured files and commits them. */
    method UpdateFiles(name: string, quoted: string)
      requires Valid() && (config.versionFilePath.Some? || config.changelogPath.Some?)
      modifies this
      ensures Valid() && memo == old(memo)
      ensures log == old(log) + FileEvents(config, env, name, quoted)
    {
      ghost var start := log;
      if config.versionFilePath.Some? {
        Output(Line("Updating version file at " + config.versionFilePath.value));
        UpdateVersionFile(name);
        Assoc(start, [Say(Line("Updating version file at " + config.versionFilePath.value))],
              VersionFileEvents(config.versionFilePath.value, name));
      } else {
        AppendEmpty(log);
      }
      ghost var versioned := log;
      if config.changelogPath.Some? {
        Output(Line("Updating " + config.changelogPath.value));
        UpdateChangelog();
        Assoc(versioned, [Say(Line("Updating " + config.changelogPath.value))],
              ChangelogFileEvents(config.changelogPath.value, env));
      } else {
        AppendEmpty(log);
      }
      ghost var changelogged := log;
      Commit(name, quoted);
      Chain(start, VersionFileStep(config, name), ChangelogStep(config, env), CommitEvents(name, quoted),
            versioned, changelogged, log);
    }

    method Log()
      requires Valid()
      modifies this
      ensures Valid() && memo == old(memo)
      ensures log == old(log) + LogEvents(env)
    {
      Output(Line("\n" + ChangelogText(env.gitTagsAnnotated)));
    }

    method CurrentRelease()
      requires Valid()
      modifies this
      ensures Valid() && memo.Some?
      ensures log == old(log) + CurrentReleaseEvents(env)
    {
      var c := CurrentReleaseVersion();
      Output(if c.Some? then Line(c.value) else Blank);
    }

    method PreviousRelease()
      requires Valid()
      modifies this
      ensures Valid() && memo.Some?
      ensures log == old(log) + PreviousReleaseEvents(env)
    {
      var p := PreviousReleaseVersion();
      if p.Some? {
        var q := PreviousReleaseVersion();
        Output(Line(q.value));
      } else {
        Output(Line("no previous release found"));
      }
    }

    method Pending()
      requires Valid()
      modifies this
      ensures Valid() && memo.Some?
      ensures log == old(log) + [Run(PendingCommand(env))]
    {
      var c := CurrentReleaseVersion();
      assert "git log " + "" + "..HEAD" == "git log ..HEAD";
      Execute("git log " + (if c.Some? then c.value else "") + "..HEAD");
    }

    method RemoveTag(tagName: string)
      requires Valid()
      modifies this
      ensures Valid() && memo == old(memo)
      ensures log == old(log) + RemoveTagEvents(config, tagName)
    {
      Execute("git tag -d " + tagName);
      Execute("git push " + config.herokuRemote + " :refs/tags/" + tagName);
      Execute("git push origin :refs/tags/" + tagName);
    }

    method Rollback()
      requires Valid()
      modifies this
      ensures Valid() && memo.Some?
      ensures log == old(log) + RollbackEvents(config, env)
    {
      var current := CurrentReleaseVersion();
      var previous := PreviousReleaseVersion();
      ghost var start := log;
      if previous.Some? {
        Output(Line("Rolling back to '" + previous.value + "' ..."));
        ghost var l1 := log;
        Execute("git push -f " + config.herokuRemote + " " + previous.value + ":master");
        ghost var l2 := log;
        Output(Line("Removing rolled back release tag '" + current.value + "' ..."));
        ghost var l3 := log;
        RemoveTag(current.value);
        ghost var l4 := log;
        Output(Line("Rollback completed"));
        RollbackLog(config, env, current.value, previous.value, start, l1, l2, l3, l4, log);
      } else {
        Output(Line("No release tags found - cannot do rollback"));
        var rs := Releases();
        Output(Each(rs));
        Assoc(start, [Say(Line("No release tags found - cannot do rollback"))], [Say(Each(rs))]);
      }
    }
  }
}
