/** Publishing a release (release/__init__.py): the commands a repository makes for its artifacts, and
    the loop that runs them against every storage provider, which may be interrupted anywhere. */
module Publish {
  import opened Wrappers

  type Path = string

  type Content = int

  datatype Artifact = Artifact(
    reproduciblePath: Option<Path>,
    channelPath: Option<Path>,
    contentType: Option<string>,
    localPath: Option<Content>,
    localContent: Option<Content>,
    localCopyFrom: Option<Path>)

  datatype Repository = Repository(path: Path, channel: Option<Path>, uniqueId: Path) {
    function PathPrefix(): Path {
      path + "/"
    }

    function ChannelPrefix(): Path {
      PathPrefix() + match channel case None => "" case Some(name) => name + "/"
    }

    function ReproducibleArtifactPath(): Path {
      ChannelPrefix() + uniqueId + "/"
    }
  }

  datatype Command =
    | Copy(source: Path, destination: Path, ifNotExists: bool)
    | Upload(content: Content, destination: Path, ifNotExists: bool, noCache: bool, contentType: Option<string>)

  datatype Commands = Commands(stage1: seq<Command>, stage2: seq<Command>)

  datatype ReleaseError = ValueError | AssertionError

  // ---------------------------------------------------------------- the commands

  /** How an artifact's first destination is filled. */
  function FirstCommand(a: Artifact, destination: Path, reproducible: bool): Result<Command, ReleaseError> {
    match a.localCopyFrom
    case Some(source) => Success(Copy(source, destination, reproducible))
    case None =>
      match (a.localPath, a.localContent)
      case (Some(_), Some(_)) => Failure(AssertionError)
      case (Some(content), None) => Success(Upload(content, destination, reproducible, !reproducible, a.contentType))
      case (None, Some(content)) => Success(Upload(content, destination, reproducible, !reproducible, a.contentType))
      case (None, None) => Failure(ValueError)
  }

  /** Every later destination is a copy of the first one. */
  function CommandsFor(repo: Repository, a: Artifact): Result<Commands, ReleaseError> {
    match (a.reproduciblePath, a.channelPath)
    case (None, None) => Failure(AssertionError)
    case (Some(path), None) =>
      var first :- FirstCommand(a, repo.PathPrefix() + path, true);
      Success(Commands([first], []))
    case (None, Some(path)) =>
      var base := repo.ReproducibleArtifactPath() + path;
      var first :- FirstCommand(a, base, false);
      Success(Commands([first], [Copy(base, repo.ChannelPrefix() + path, false)]))
    case (Some(reproducible), Some(path)) =>
      var base := repo.PathPrefix() + reproducible;
      var first :- FirstCommand(a, base, true);
      Success(Commands([first, Copy(base, repo.ReproducibleArtifactPath() + path, false)],
                       [Copy(base, repo.ChannelPrefix() + path, false)]))
  }

  function CommandsForAll(repo: Repository, artifacts: seq<Artifact>): Result<Commands, ReleaseError> {
    if artifacts == [] then Success(Commands([], []))
    else
      var first :- CommandsFor(repo, artifacts[0]);
      var others :- CommandsForAll(repo, artifacts[1..]);
      Success(Commands(first.stage1 + others.stage1, first.stage2 + others.stage2))
  }

  /** The metadata is an artifact too, and comes last. */
  function MetadataArtifact(json: Content): Artifact {
    Artifact(None, Some("metadata.json"), Some("application/json; charset=utf-8"), None, Some(json), None)
  }

  function AllArtifacts(core: seq<Artifact>, channel: seq<Artifact>, json: Content): seq<Artifact> {
    core + channel + [MetadataArtifact(json)]
  }

  ghost function Prepend(made: Commands, r: Result<Commands, ReleaseError>): Result<Commands, ReleaseError> {
    match r
    case Failure(e) => Failure(e)
    case Success(more) => Success(Commands(made.stage1 + more.stage1, made.stage2 + more.stage2))
  }

  lemma PrependTwice(a: Commands, b: Commands, r: Result<Commands, ReleaseError>)
    ensures Prepend(a, Prepend(b, r)) == Prepend(Commands(a.stage1 + b.stage1, a.stage2 + b.stage2), r)
  {
    match r {
      case Failure(_) =>
      case Success(more) =>
        assert a.stage1 + (b.stage1 + more.stage1) == a.stage1 + b.stage1 + more.stage1;
        assert a.stage2 + (b.stage2 + more.stage2) == a.stage2 + b.stage2 + more.stage2;
    }
  }

  /** `make_commands`, and the state of its nested functions: the two stages under construction
      and the current artifact's upload path. */
  class CommandMaker {
    const repo: Repository
    var stage1: seq<Command>
    var stage2: seq<Command>
    var uploadPath: Option<Path>

    constructor (repo: Repository)
      ensures this.repo == repo && Made() == Commands([], [])
    {
      this.repo := repo;
      stage1, stage2, uploadPath := [], [], None;
    }

    function Made(): Commands
      reads this
    {
      Commands(stage1, stage2)
    }

    /** `add_dest`. */
    method AddDest(a: Artifact, destination: Path, reproducible: bool) returns (r: Result<Command, ReleaseError>)
      modifies this`uploadPath
      ensures uploadPath == if old(uploadPath).Some? then old(uploadPath) else Some(destination)
      ensures r == match old(uploadPath)
                   case Some(base) => Success(Copy(base, destination, reproducible))
                   case None => FirstCommand(a, destination, reproducible)
    {
      if uploadPath.Some? {
        return Success(Copy(uploadPath.value, destination, reproducible));
      }
      uploadPath := Some(destination);
      if a.localCopyFrom.Some? {
        return Success(Copy(a.localCopyFrom.value, destination, reproducible));
      }
      if a.localPath.Some? {
        if a.localContent.Some? {
          return Failure(AssertionError);
        }
        return Success(Upload(a.localPath.value, destination, reproducible, !reproducible, a.contentType));
      } else if a.localContent.Some? {
        return Success(Upload(a.localContent.value, destination, reproducible, !reproducible, a.contentType));
      }
      r := Failure(ValueError);
    }

    /** `process_artifact`. */
    method ProcessArtifact(a: Artifact) returns (r: Result<(), ReleaseError>)
      modifies this
      ensures match CommandsFor(repo, a)
              case Failure(e) => r == Failure(e)
              case Success(made) =>
                && r.Success?
                && Made() == Commands(old(stage1) + made.stage1, old(stage2) + made.stage2)
    {
      uploadPath := None;
      var actionCount := 0;
      if a.reproduciblePath.Some? {
        actionCount := actionCount + 1;
        var command :- AddDest(a, repo.PathPrefix() + a.reproduciblePath.value, true);
        stage1 := stage1 + [command];
      }
      if a.channelPath.Some? {
        actionCount := actionCount + 2;
        var command :- AddDest(a, repo.ReproducibleArtifactPath() + a.channelPath.value, false);
        stage1 := stage1 + [command];
        var copied := AddDest(a, repo.ChannelPrefix() + a.channelPath.value, false);
        stage2 := stage2 + [copied.value];
      }
      if actionCount == 0 {
        return Failure(AssertionError);
      }
      r := Success(());
    }

    method ProcessAll(artifacts: seq<Artifact>) returns (r: Result<(), ReleaseError>)
      modifies this
      ensures match Prepend(old(Made()), CommandsForAll(repo, artifacts))
              case Failure(e) => r == Failure(e)
              case Success(all) => r.Success? && Made() == all
    {
      ghost var start := Made();
      assert artifacts[0..] == artifacts;
      for i := 0 to |artifacts|
        invariant Prepend(start, CommandsForAll(repo, artifacts))
               == Prepend(Made(), CommandsForAll(repo, artifacts[i..]))
      {
        assert artifacts[i..][0] == artifacts[i] && artifacts[i..][1..] == artifacts[i + 1..];
        ghost var made := Made();
        var processed :- ProcessArtifact(artifacts[i]);
        PrependTwice(made, CommandsFor(repo, artifacts[i]).value, CommandsForAll(repo, artifacts[i + 1..]));
      }
      assert CommandsForAll(repo, []) == Success(Commands([], []));
      assert stage1 + [] == stage1 && stage2 + [] == stage2;
      r := Success(());
    }
  }

  lemma {:induction false} CommandsForTwoParts(repo: Repository, a: seq<Artifact>, b: seq<Artifact>)
    ensures CommandsForAll(repo, a + b)
         == match CommandsForAll(repo, a)
            case Failure(e) => Failure(e)
            case Success(made) => Prepend(made, CommandsForAll(repo, b))
  {
    if a == [] {
      assert a + b == b;
      PrependNothing(CommandsForAll(repo, b));
    } else {
      assert (a + b)[1..] == a[1..] + b;
      CommandsForTwoParts(repo, a[1..], b);
      if CommandsFor(repo, a[0]).Success? && CommandsForAll(repo, a[1..]).Success? {
        PrependTwice(CommandsFor(repo, a[0]).value, CommandsForAll(repo, a[1..]).value, CommandsForAll(repo, b));
      }
    }
  }

  lemma PrependNothing(r: Result<Commands, ReleaseError>)
    ensures Prepend(Commands([], []), r) == r
  {
    match r {
      case Failure(_) =>
      case Success(more) => assert [] + more.stage1 == more.stage1 && [] + more.stage2 == more.stage2;
    }
  }

  // ---------------------------------------------------------------- where everything goes

  function Dests(commands: seq<Command>): set<Path> {
    if commands == [] then {} else {commands[0].destination} + Dests(commands[1..])
  }

  lemma {:induction false} DestsOfTwoParts(a: seq<Command>, b: seq<Command>)
    ensures Dests(a + b) == Dests(a) + Dests(b)
  {
    if a == [] {
      assert a + b == b;
    } else {
      assert (a + b)[1..] == a[1..] + b;
      DestsOfTwoParts(a[1..], b);
    }
  }

  /** The paths an artifact is published at. */
  function Destinations(repo: Repository, a: Artifact): set<Path> {
    (match a.reproduciblePath case None => {} case Some(path) => {repo.PathPrefix() + path})
    + (match a.channelPath
       case None => {}
       case Some(path) => {repo.ReproducibleArtifactPath() + path, repo.ChannelPrefix() + path})
  }

  function AllDestinations(repo: Repository, artifacts: seq<Artifact>): set<Path> {
    if artifacts == [] then {} else Destinations(repo, artifacts[0]) + AllDestinations(repo, artifacts[1..])
  }

  lemma ArtifactDestinations(repo: Repository, a: Artifact)
    requires CommandsFor(repo, a).Success?
    ensures var Commands(stage1, stage2) := CommandsFor(repo, a).value;
            Dests(stage1) + Dests(stage2) == Destinations(repo, a)
  {
    hide Repository.PathPrefix, Repository.ReproducibleArtifactPath, Repository.ChannelPrefix;
    var Commands(stage1, stage2) := CommandsFor(repo, a).value;
    if a.channelPath.Some? {
      OneDest(stage2[0]);
      assert stage2 == [stage2[0]];
    }
    OneDest(stage1[|stage1| - 1]);
    if |stage1| == 2 {
      assert stage1[1..] == [stage1[1]];
    } else {
      assert stage1 == [stage1[0]];
    }
  }

  lemma OneDest(command: Command)
    ensures Dests([command]) == {command.destination}
  {
    assert [command][1..] == [];
  }

  /** Commands are made for every destination and for nothing else. */
  lemma {:induction false} DestinationsOfAll(repo: Repository, artifacts: seq<Artifact>)
    requires CommandsForAll(repo, artifacts).Success?
    ensures var Commands(stage1, stage2) := CommandsForAll(repo, artifacts).value;
            Dests(stage1) + Dests(stage2) == AllDestinations(repo, artifacts)
    ensures forall path :: path in AllDestinations(repo, artifacts) <==>
              exists a :: a in artifacts && PublishedAt(repo, a, path)
  {
    hide CommandsFor, Destinations, PublishedAt;
    if artifacts != [] {
      var Commands(first1, first2) := CommandsFor(repo, artifacts[0]).value;
      var Commands(rest1, rest2) := CommandsForAll(repo, artifacts[1..]).value;
      ArtifactDestinations(repo, artifacts[0]);
      DestinationsOfAll(repo, artifacts[1..]);
      DestsOfTwoParts(first1, rest1);
      DestsOfTwoParts(first2, rest2);
      assert artifacts == [artifacts[0]] + artifacts[1..];
      forall path
        ensures path in Destinations(repo, artifacts[0]) <==> PublishedAt(repo, artifacts[0], path)
      {
        DestinationsAre(repo, artifacts[0], path);
      }
    }
  }

  /** The paths spelled out: a reproducible path below the repository, and a channel path both below
      the release's own directory and below the channel. */
  predicate PublishedAt(repo: Repository, a: Artifact, path: Path) {
    var channel := repo.path + "/" + (match repo.channel case None => "" case Some(name) => name + "/");
    || (a.reproduciblePath.Some? && path == repo.path + "/" + a.reproduciblePath.value)
    || (a.channelPath.Some? && path == channel + a.channelPath.value)
    || (a.channelPath.Some? && path == channel + repo.uniqueId + "/" + a.channelPath.value)
  }

  lemma DestinationsAre(repo: Repository, a: Artifact, path: Path)
    ensures path in Destinations(repo, a) <==> PublishedAt(repo, a, path)
  {
  }

  /** An artifact goes somewhere, and is a copy, a file or given contents, but not two of the latter. */
  predicate Publishable(a: Artifact) {
    && (a.reproduciblePath.Some? || a.channelPath.Some?)
    && (a.localCopyFrom.Some? || (a.localPath.Some? <==> a.localContent.None?))
  }

  lemma {:induction false} AllPublishable(repo: Repository, artifacts: seq<Artifact>)
    ensures CommandsForAll(repo, artifacts).Success? <==> forall a | a in artifacts :: Publishable(a)
  {
    if artifacts != [] {
      assert artifacts == [artifacts[0]] + artifacts[1..];
      AllPublishable(repo, artifacts[1..]);
      assert CommandsFor(repo, artifacts[0]).Success? <==> Publishable(artifacts[0]);
    }
  }

  /** A command for this artifact: its uploads carry its content and type, and what may change under
      its path, which is all but the reproducible path, is neither skipped nor cached. */
  predicate MadeFor(repo: Repository, a: Artifact, command: Command) {
    && PublishedAt(repo, a, command.destination)
    && (command.ifNotExists ==>
          a.reproduciblePath.Some? && command.destination == repo.path + "/" + a.reproduciblePath.value)
    && (command.Upload? ==>
          && command.noCache == !command.ifNotExists
          && command.contentType == a.contentType
          && Some(command.content) == (if a.localPath.Some? then a.localPath else a.localContent))
  }

  /** The reproducible path is skipped where it exists. */
  predicate KeepsReproducible(repo: Repository, a: Artifact, stage1: seq<Command>) {
    a.reproduciblePath.Some? ==>
      exists command <- stage1 ::
        command.ifNotExists && command.destination == repo.path + "/" + a.reproduciblePath.value
  }

  lemma ArtifactMadeFor(repo: Repository, a: Artifact)
    requires CommandsFor(repo, a).Success?
    ensures var Commands(stage1, stage2) := CommandsFor(repo, a).value;
            (forall command <- stage1 + stage2 :: MadeFor(repo, a, command)) && KeepsReproducible(repo, a, stage1)
  {
    if a.reproduciblePath.Some? {
      assert CommandsFor(repo, a).value.stage1[0].ifNotExists;
    }
  }

  /** Every command is made for some artifact, as that artifact asks. */
  lemma {:induction false} AllMadeFor(repo: Repository, artifacts: seq<Artifact>)
    requires CommandsForAll(repo, artifacts).Success?
    ensures var Commands(stage1, stage2) := CommandsForAll(repo, artifacts).value;
            && (forall command <- stage1 + stage2 :: exists a <- artifacts :: MadeFor(repo, a, command))
            && (forall a <- artifacts :: KeepsReproducible(repo, a, stage1))
  {
    hide CommandsFor, MadeFor, KeepsReproducible;
    if artifacts != [] {
      var Commands(first1, first2) := CommandsFor(repo, artifacts[0]).value;
      var Commands(rest1, rest2) := CommandsForAll(repo, artifacts[1..]).value;
      ArtifactMadeFor(repo, artifacts[0]);
      AllMadeFor(repo, artifacts[1..]);
      assert artifacts == [artifacts[0]] + artifacts[1..];
      forall a <- artifacts
        ensures KeepsReproducible(repo, a, first1 + rest1)
      {
        KeptInMore(repo, a, first1, rest1);
      }
      forall command <- first1 + rest1 + (first2 + rest2)
        ensures exists a <- artifacts :: MadeFor(repo, a, command)
      {
        if command in first1 + first2 {
          assert artifacts[0] in artifacts && MadeFor(repo, artifacts[0], command);
        } else {
          assert command in rest1 + rest2;
          var a :| a in artifacts[1..] && MadeFor(repo, a, command);
          assert a in artifacts;
        }
      }
    }
  }

  lemma KeptInMore(repo: Repository, a: Artifact, some: seq<Command>, more: seq<Command>)
    requires KeepsReproducible(repo, a, some) || KeepsReproducible(repo, a, more)
    ensures KeepsReproducible(repo, a, some + more)
  {
    if a.reproduciblePath.Some? {
      var command :| command in some + more && command.ifNotExists
        && command.destination == repo.path + "/" + a.reproduciblePath.value;
      assert command in some + more;
    }
  }

  /** The metadata is uploaded after everything else in stage 1, and released last of all. */
  predicate MetadataIsLast(repo: Repository, json: Content, made: Commands) {
    var base := repo.ReproducibleArtifactPath() + "metadata.json";
    && made.stage1 != [] && made.stage2 != []
    && made.stage1[|made.stage1| - 1] == Upload(json, base, false, true, Some("application/json; charset=utf-8"))
    && made.stage2[|made.stage2| - 1] == Copy(base, repo.ChannelPrefix() + "metadata.json", false)
  }

  lemma MetadataMade(repo: Repository, others: seq<Artifact>, json: Content)
    requires CommandsForAll(repo, others + [MetadataArtifact(json)]).Success?
    ensures MetadataIsLast(repo, json, CommandsForAll(repo, others + [MetadataArtifact(json)]).value)
    ensures forall path :: PublishedAt(repo, MetadataArtifact(json), path) <==>
              path in {repo.ReproducibleArtifactPath() + "metadata.json", repo.ChannelPrefix() + "metadata.json"}
  {
    var last := [MetadataArtifact(json)];
    CommandsForTwoParts(repo, others, last);
    assert last[1..] == [];
    var made := CommandsForAll(repo, last).value;
    assert |made.stage1| == 1 && |made.stage2| == 1;
  }

  /** Where the artifacts and the metadata belong. */
  predicate Belongs(repo: Repository, core: seq<Artifact>, channel: seq<Artifact>, path: Path) {
    || (exists a <- core :: PublishedAt(repo, a, path))
    || (exists a <- channel :: PublishedAt(repo, a, path))
    || path == repo.ReproducibleArtifactPath() + "metadata.json"
    || path == repo.ChannelPrefix() + "metadata.json"
  }

  lemma AllBelong(repo: Repository, core: seq<Artifact>, channel: seq<Artifact>, json: Content)
    ensures var r := CommandsForAll(repo, AllArtifacts(core, channel, json));
            && (r.Success? <==> forall a | a in core || a in channel :: Publishable(a))
            && (r.Success? ==>
                  && (forall path :: path in Dests(r.value.stage1) + Dests(r.value.stage2) <==>
                        Belongs(repo, core, channel, path))
                  && MetadataIsLast(repo, json, r.value))
  {
    var metadata := MetadataArtifact(json);
    var all := AllArtifacts(core, channel, json);
    AllPublishable(repo, all);
    assert forall a :: a in all <==> a in core || a in channel || a == metadata;
    assert Publishable(metadata);
    hide PublishedAt, Publishable, CommandsFor, MetadataIsLast;
    if CommandsForAll(repo, all).Success? {
      DestinationsOfAll(repo, all);
      MetadataMade(repo, core + channel, json);
      forall path
        ensures (exists a :: a in all && PublishedAt(repo, a, path)) <==> Belongs(repo, core, channel, path)
      {
        assert metadata in all;
      }
    }
  }

  /** `make_commands` for core and channel artifacts and the metadata: it fails exactly if one of them
      cannot be published, and else asks for all their destinations and for nothing else. */
  method MakeCommands(repo: Repository, core: seq<Artifact>, channel: seq<Artifact>, json: Content)
    returns (r: Result<Commands, ReleaseError>)
    ensures r == CommandsForAll(repo, AllArtifacts(core, channel, json))
    ensures r.Success? <==> forall a | a in core || a in channel :: Publishable(a)
    ensures r.Success? ==>
              forall path :: path in Dests(r.value.stage1) + Dests(r.value.stage2) <==>
                Belongs(repo, core, channel, path)
    ensures r.Success? ==> MetadataIsLast(repo, json, r.value)
  {
    hide Dests, Belongs, Publishable, CommandsFor, MetadataIsLast;
    AllBelong(repo, core, channel, json);
    var maker := new CommandMaker(repo);
    CommandsForTwoParts(repo, core + channel, [MetadataArtifact(json)]);
    CommandsForTwoParts(repo, core, channel);
    PrependNothing(CommandsForAll(repo, core));
    var processed :- maker.ProcessAll(core);
    processed :- maker.ProcessAll(channel);
    processed :- maker.ProcessAll([MetadataArtifact(json)]);
    r := Success(maker.Made());
  }
}
