/**
 * What the rake tasks of `HerokuRelease::Task` guarantee: the order of the git commands
 * of `tag`, that the comment reaches git unchanged through the shell quoting, that
 * a new release becomes the current one, and which release `rollback` deploys and
 * which tag it removes.
 */
module TaskProperties {
  import opened Wrappers
  import opened Text
  import opened Releases
  import opened Changelog
  import opened ReleaseName
  import opened Quoting
  import opened HerokuRelease
  import opened Sequences

  // ---------------------------------------------------------------------------
  // tag
  // ---------------------------------------------------------------------------

  /** The commands `tag` runs for the configured files: each file added, then one commit pushed to origin. */
  function FileCommands(config: Config, name: string, quoted: string): seq<string>
  {
    if config.versionFilePath.Some? || config.changelogPath.Some? then
      (if config.versionFilePath.Some? then ["git add " + config.versionFilePath.value] else [])
      + (if config.changelogPath.Some? then ["git add " + config.changelogPath.value] else [])
      + [CommitCommand(name, quoted), "git push origin master"]
    else []
  }

  /** The files `tag` writes: the version file holds the release name, the changelog the generated text. */
  function FileWrites(config: Config, env: Env, name: string): seq<(string, string)>
  {
    (if config.versionFilePath.Some? then [(config.versionFilePath.value, name)] else [])
    + (if config.changelogPath.Some? then [(config.changelogPath.value, Warning + ChangelogText(env.gitTagsAnnotated))] else [])
  }

  lemma VersionFileStepProjections(config: Config, name: string)
    ensures Commands(VersionFileStep(config, name))
            == if config.versionFilePath.Some? then ["git add " + config.versionFilePath.value] else []
    ensures Writes(VersionFileStep(config, name))
            == if config.versionFilePath.Some? then [(config.versionFilePath.value, name)] else []
  {
    if config.versionFilePath.Some? {
      var path := config.versionFilePath.value;
      var say := Say(Line("Updating version file at " + path));
      CommandsConcat([say], VersionFileEvents(path, name));
      Projections1(say);
      Projections2(Write(path, name), Run("git add " + path));
    }
  }

  lemma ChangelogStepProjections(config: Config, env: Env)
    ensures Commands(ChangelogStep(config, env))
            == if config.changelogPath.Some? then ["git add " + config.changelogPath.value] else []
    ensures Writes(ChangelogStep(config, env))
            == if config.changelogPath.Some? then [(config.changelogPath.value, Warning + ChangelogText(env.gitTagsAnnotated))] else []
  {
    if config.changelogPath.Some? {
      var path := config.changelogPath.value;
      var say := Say(Line("Updating " + path));
      CommandsConcat([say], ChangelogFileEvents(path, env));
      Projections1(say);
      Projections2(Write(path, FileContent(env.gitTagsAnnotated)), Run("git add " + path));
    }
  }

  lemma FileEventsProjections(config: Config, env: Env, name: string, quoted: string)
    ensures Commands(FileEvents(config, env, name, quoted)) == FileCommands(config, name, quoted)
    ensures Writes(FileEvents(config, env, name, quoted)) == FileWrites(config, env, name)
  {
    if config.versionFilePath.Some? || config.changelogPath.Some? {
      var v := VersionFileStep(config, name);
      var c := ChangelogStep(config, env);
      assert CommitEvents(name, quoted) == [Run(CommitCommand(name, quoted)), Run("git push origin master")];
      FileShape(v, c, Run(CommitCommand(name, quoted)), Run("git push origin master"));
      VersionFileStepProjections(config, name);
      ChangelogStepProjections(config, env);
    }
  }

  /** The commands and files of the file steps of `tag` followed by two commands. */
  lemma FileShape(v: seq<Event>, c: seq<Event>, r1: Event, r2: Event)
    requires r1.Run? && r2.Run?
    ensures Commands(v + c + [r1, r2]) == Commands(v) + Commands(c) + [r1.command, r2.command]
    ensures Writes(v + c + [r1, r2]) == Writes(v) + Writes(c)
  {
    CommandsConcat(v + c, [r1, r2]);
    CommandsConcat(v, c);
    Projections2(r1, r2);
    assert RunOf(r1) + RunOf(r2) == [r1.command, r2.command];
    assert WriteOf(r1) + WriteOf(r2) == [];
  }

  /**
   * `tag` with a comment: the configured files are added, committed and pushed to
   * origin first; then the release is tagged, and the tags are pushed to origin
   * and then to the Heroku remote. The files written are the version file with
   * the release name and the changelog.
   */
  lemma TagCommandOrder(config: Config, env: Env, c: string)
    requires CommentOf(config, env) == Some(c)
    ensures var name, quoted := ReleaseNameOf(env.now), SingleQuote(c);
            Commands(TagEvents(config, env))
            == FileCommands(config, name, quoted)
               + [TagCommand(name, quoted), "git push --tags origin", "git push --tags " + config.herokuRemote]
    ensures Writes(TagEvents(config, env)) == FileWrites(config, env, ReleaseNameOf(env.now))
  {
    var name, quoted := ReleaseNameOf(env.now), SingleQuote(c);
    TagEventsParts(config, env, c);
    CommentEventsSilent(config, env);
    SilentFirst(CommentEvents(config, env), FileEvents(config, env, name, quoted), TaggingEvents(config, name, quoted));
    TaggingProjections(config, name, quoted);
    FileEventsProjections(config, env, name, quoted);
    AppendEmpty(FileWrites(config, env, name));
  }

  /** The prompt runs no command and writes no file. */
  lemma CommentEventsSilent(config: Config, env: Env)
    ensures Commands(CommentEvents(config, env)) == [] && Writes(CommentEvents(config, env)) == []
  {
    if CommentEvents(config, env) != [] {
      Projections1(Ask(Prompt));
    }
  }

  /** The announcement, the tag command and the two tag pushes. */
  lemma TaggingProjections(config: Config, name: string, quoted: string)
    ensures Commands(TaggingEvents(config, name, quoted))
            == [TagCommand(name, quoted), "git push --tags origin", "git push --tags " + config.herokuRemote]
    ensures Writes(TaggingEvents(config, name, quoted)) == []
    ensures Ask(Prompt) !in TaggingEvents(config, name, quoted)
  {
    var say := Say(Line("Tagging release as '" + name + "'"));
    var a, b, d := TagCommand(name, quoted), "git push --tags origin", "git push --tags " + config.herokuRemote;
    SayThenThree(say, Run(a), Run(b), Run(d));
    assert TaggingEvents(config, name, quoted) == [say, Run(a), Run(b), Run(d)];
  }

  lemma SayThenThree(say: Event, r1: Event, r2: Event, r3: Event)
    requires say.Say? && r1.Run? && r2.Run? && r3.Run?
    ensures Commands([say, r1, r2, r3]) == [r1.command, r2.command, r3.command]
    ensures Writes([say, r1, r2, r3]) == []
  {
    Projections4(say, r1, r2, r3);
    assert RunOf(say) + RunOf(r1) + RunOf(r2) + RunOf(r3) == [r1.command, r2.command, r3.command];
    assert WriteOf(say) + WriteOf(r1) + WriteOf(r2) + WriteOf(r3) == [];
  }

  /** A part of a log that runs nothing and writes nothing adds nothing to what follows it. */
  lemma SilentFirst(pre: seq<Event>, files: seq<Event>, tail: seq<Event>)
    requires Commands(pre) == [] && Writes(pre) == []
    ensures Commands(pre + files + tail) == Commands(files) + Commands(tail)
    ensures Writes(pre + files + tail) == Writes(files) + Writes(tail)
  {
    assert Commands(pre + files + tail) == Commands(files) + Commands(tail) by {
      RunsConcat(pre + files, tail);
      RunsConcat(pre, files);
      EmptyAppend(Commands(files));
    }
    assert Writes(pre + files + tail) == Writes(files) + Writes(tail) by {
      WritesConcat(pre + files, tail);
      WritesConcat(pre, files);
      EmptyAppend(Writes(files));
    }
  }


  /**
   * `tag` runs nothing and writes nothing when standard input ends at the prompt;
   * otherwise it always runs the tag command.
   */
  lemma TagAbortsWithoutComment(config: Config, env: Env)
    ensures CommentOf(config, env).None? ==>
              TagEvents(config, env) == [Ask(Prompt)]
              && Commands(TagEvents(config, env)) == [] && Writes(TagEvents(config, env)) == []
    ensures CommentOf(config, env).Some? ==>
              Run(TagCommand(ReleaseNameOf(env.now), SingleQuote(CommentOf(config, env).value))) in TagEvents(config, env)
  {
    if CommentOf(config, env).None? {
      TagEventsAborted(config, env);
      assert Commands([Ask(Prompt)]) == [] && Writes([Ask(Prompt)]) == [];
    } else {
      var c := CommentOf(config, env).value;
      TagCommandOrder(config, env, c);
      var cmds := Commands(TagEvents(config, env));
      assert cmds[|cmds| - 3] == TagCommand(ReleaseNameOf(env.now), SingleQuote(c));
    }
  }

  /** Through `/bin/sh`, the `-m` argument of the tag command is exactly the comment: quotes in it survive. */
  lemma TagCommentReachesGit(t: UtcTime, c: string)
    ensures var name, w := ReleaseNameOf(t), "'" + SingleQuote(c) + "'";
            TagCommand(name, SingleQuote(c)) == "git tag -a " + name + " -m " + w
            && Unquoted(w) == Some(c)
  {
    var name, quoted := ReleaseNameOf(t), SingleQuote(c);
    TagWord(name, quoted);
    QuotedWord(c);
  }

  lemma TagWord(name: string, quoted: string)
    ensures TagCommand(name, quoted) == "git tag -a " + name + " -m " + ("'" + quoted + "'")
  {
    var q := "'";
    assert " -m '" == " -m " + q;
    Regroup("git tag -a " + name, " -m ", q, quoted, q);
  }

  /** Through `/bin/sh`, the commit message is the release name, a colon and the comment. */
  lemma CommitCommentReachesGit(t: UtcTime, c: string)
    ensures var name := ReleaseNameOf(t);
            var w := "'" + (name + ": ") + SingleQuote(c) + "'";
            CommitCommand(name, SingleQuote(c)) == "git commit -m " + w
            && Unquoted(w) == Some(name + ": " + c)
  {
    var name, quoted := ReleaseNameOf(t), SingleQuote(c);
    CommitWord(name, quoted);
    NameColonUnquoted(t);
    QuotedWordWithPrefix(name + ": ", c);
  }

  lemma NameColonUnquoted(t: UtcTime)
    ensures '\'' !in ReleaseNameOf(t) + ": "
  {
    var name := ReleaseNameOf(t);
    var p := name + ": ";
    assert forall i :: 0 <= i < |name| ==> p[i] == name[i];
  }

  lemma CommitWord(name: string, quoted: string)
    ensures CommitCommand(name, quoted) == "git commit -m " + ("'" + (name + ": ") + quoted + "'")
  {
    var q := "'";
    assert "git commit -m '" == "git commit -m " + q;
    Regroup5("git commit -m ", q, name, ": ", quoted, q);
  }

  /**
   * With the gem's default configuration and `COMMENT` set, `tag` prints no prompt,
   * writes no file and runs exactly the tag command and the two tag pushes, the
   * second one to the `heroku` remote.
   */
  lemma DefaultTag(env: Env)
    requires env.comment.Some?
    ensures var name, quoted := ReleaseNameOf(env.now), SingleQuote(env.comment.value);
            Commands(TagEvents(Default, env))
            == [TagCommand(name, quoted), "git push --tags origin", "git push --tags " + "heroku"]
    ensures Writes(TagEvents(Default, env)) == []
    ensures Ask(Prompt) !in TagEvents(Default, env)
  {
    var c := env.comment.value;
    var name, quoted := ReleaseNameOf(env.now), SingleQuote(c);
    var tagging := TaggingEvents(Default, name, quoted);
    assert CommentOf(Default, env) == Some(c);
    assert TagEvents(Default, env) == tagging by {
      TagEventsParts(Default, env, c);
      assert CommentEvents(Default, env) == [] && FileEvents(Default, env, name, quoted) == [];
      EmptyAppend(tagging);
    }
    TaggingProjections(Default, name, quoted);
  }

  // ---------------------------------------------------------------------------
  // rollback
  // ---------------------------------------------------------------------------

  /** The four commands of `rollback` with at least two releases, `p` the previous and `c` the current one. */
  lemma RollbackCommandsOf(config: Config, env: Env, c: string, p: string)
    requires Current(ReleasesOf(env.gitTags)) == Some(c)
    requires Previous(ReleasesOf(env.gitTags)) == Some(p)
    ensures Commands(RollbackEvents(config, env))
            == ["git push -f " + config.herokuRemote + " " + p + ":master",
                "git tag -d " + c,
                "git push " + config.herokuRemote + " :refs/tags/" + c,
                "git push origin :refs/tags/" + c]
  {
    var force, del := "git push -f " + config.herokuRemote + " " + p + ":master", "git tag -d " + c;
    var delRemote, delOrigin := "git push " + config.herokuRemote + " :refs/tags/" + c, "git push origin :refs/tags/" + c;
    var s1, s2 := Say(Line("Rolling back to '" + p + "' ...")), Say(Line("Removing rolled back release tag '" + c + "' ..."));
    var s3 := Say(Line("Rollback completed"));
    var head, remove, done := [s1, Run(force), s2], [Run(del), Run(delRemote), Run(delOrigin)], [s3];
    assert RollbackEvents(config, env) == head + remove + done by {
      RollbackEventsParts(config, env, c, p);
    }
    RollbackShape(s1, Run(force), s2, Run(del), Run(delRemote), Run(delOrigin), s3);
  }

  /** The commands of a log shaped like `rollback`'s: a message, a command, a message, three commands, a message. */
  lemma RollbackShape(s1: Event, r1: Event, s2: Event, r2: Event, r3: Event, r4: Event, s3: Event)
    requires s1.Say? && s2.Say? && s3.Say? && r1.Run? && r2.Run? && r3.Run? && r4.Run?
    ensures Commands([s1, r1, s2] + [r2, r3, r4] + [s3]) == [r1.command, r2.command, r3.command, r4.command]
  {
    var head, remove, done := [s1, r1, s2], [r2, r3, r4], [s3];
    var c1, c234 := [r1.command], [r2.command, r3.command, r4.command];
    assert Commands(head) == c1 by {
      Projections3(s1, r1, s2);
      assert RunOf(s1) + RunOf(r1) + RunOf(s2) == c1;
    }
    assert Commands(remove) == c234 by {
      Projections3(r2, r3, r4);
      assert RunOf(r2) + RunOf(r3) + RunOf(r4) == c234;
    }
    assert Commands(done) == [] by {
      Projections1(s3);
    }
    CommandsConcat(head + remove, done);
    CommandsConcat(head, remove);
    assert c1 + c234 + [] == [r1.command, r2.command, r3.command, r4.command];
  }

  /**
   * `rollback` with at least two releases: it force-pushes the second-latest
   * release to the Heroku remote's master, then deletes the latest release tag
   * locally, on the Heroku remote and on origin.
   */
  lemma RollbackCommands(config: Config, env: Env)
    requires Previous(ReleasesOf(env.gitTags)).Some?
    ensures var rs := ReleasesOf(env.gitTags);
            var p, c := Previous(rs).value, Current(rs).value;
            Commands(RollbackEvents(config, env))
            == ["git push -f " + config.herokuRemote + " " + p + ":master",
                "git tag -d " + c,
                "git push " + config.herokuRemote + " :refs/tags/" + c,
                "git push origin :refs/tags/" + c]
            && (forall x :: x in Fields(env.gitTags) && IsReleaseLine(x) ==> LessEq(x, c))
            && (forall x :: x in Fields(env.gitTags) && IsReleaseLine(x) && x != c ==> LessEq(x, p))
  {
    var rs := ReleasesOf(env.gitTags);
    assert Current(rs).Some?;
    var p, c := Previous(rs).value, Current(rs).value;
    RollbackCommandsOf(config, env, c, p);
    CurrentIsLatest(env.gitTags);
    OthersBelowPrevious(env.gitTags);
  }

  /** `rollback` with fewer than two releases runs no command and shows the releases it found. */
  lemma RollbackRefused(config: Config, env: Env)
    requires Previous(ReleasesOf(env.gitTags)).None?
    ensures RollbackEvents(config, env)
      == [Say(Line("No release tags found - cannot do rollback")), Say(Each(ReleasesOf(env.gitTags)))]
    ensures Commands(RollbackEvents(config, env)) == []
    ensures Say(Each(ReleasesOf(env.gitTags))) in RollbackEvents(config, env)
    ensures |ReleasesOf(env.gitTags)| <= 1
  {
    var e := RollbackEvents(config, env);
    assert Commands(e) == Commands(e[1..]);
  }
}
