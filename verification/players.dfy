/** The audio players both scripts know, and the order in which they are
    tried: the first one installed on the search path is the one run. */
module Players {
  import opened Wrappers
  import opened Platform

  datatype Player = Sox | Mpg123 | Ffplay

  /** The executable each player is looked up by. */
  function Program(p: Player): (name: string)
    ensures name != []
  {
    match p
    case Sox => "play"
    case Mpg123 => "mpg123"
    case Ffplay => "ffplay"
  }

  /** sox's `play` first, then `mpg123`, then ffmpeg's `ffplay`. */
  const PRIORITY: seq<Player> := [Sox, Mpg123, Ffplay]

  /** Reference scan: the index in `order` of the first player whose program
      is installed, or `|order|` when none is. */
  function FirstAvailable(order: seq<Player>, which: map<string, Path>): (k: nat)
    ensures k <= |order|
    ensures forall j | 0 <= j < k :: Program(order[j]) !in which
    ensures k < |order| ==> Program(order[k]) in which
  {
    if order == [] then 0
    else if Program(order[0]) in which then 0
    else 1 + FirstAvailable(order[1..], which)
  }

  /** Different players are looked up under different names. */
  lemma ProgramInjective(p: Player, q: Player)
    ensures Program(p) == Program(q) <==> p == q
  {
  }

  /** Installing one more player changes the choice exactly when the new
      player comes before the one chosen so far. */
  lemma {:induction false} InstallPlayer(order: seq<Player>, which: map<string, Path>, j: nat, exe: Path)
    requires j < |order|
    requires forall a, b | 0 <= a < b < |order| :: order[a] != order[b]
    ensures var before := FirstAvailable(order, which);
            FirstAvailable(order, which[Program(order[j]) := exe]) == if j < before then j else before
  {
    var which' := which[Program(order[j]) := exe];
    if Program(order[0]) !in which {
      if j == 0 {
        assert Program(order[0]) in which';
      } else {
        assert order[0] != order[j];
        ProgramInjective(order[0], order[j]);
        assert Program(order[0]) !in which';
        assert order[1..][j - 1] == order[j];
        InstallPlayer(order[1..], which, j - 1, exe);
      }
    }
  }

  /** The scan finds no player exactly when none of the three programs is
      installed. */
  lemma NoPlayerIff(which: map<string, Path>)
    ensures FirstAvailable(PRIORITY, which) == |PRIORITY| <==> forall p: Player :: Program(p) !in which
  {
    if FirstAvailable(PRIORITY, which) == |PRIORITY| {
      forall p: Player
        ensures Program(p) !in which
      {
        var i := match p case Sox => 0 case Mpg123 => 1 case Ffplay => 2;
        assert PRIORITY[i] == p;
      }
    }
  }

  /** An argument a player reads as an option. */
  predicate IsOption(arg: string)
  {
    arg != [] && arg[0] == '-'
  }

  /** The arguments a player reads as input files (ignoring option values). */
  function Operands(args: seq<string>): (r: seq<string>)
    ensures |r| <= |args|
    ensures forall i | 0 <= i < |r| :: r[i] in args && !IsOption(r[i])
  {
    if args == [] then []
    else (if IsOption(args[0]) then [] else [args[0]]) + Operands(args[1..])
  }

  /** The players run by one call of `play_sound` whose if/elif ladder chose
      `argv` (None when it raises `PlayerNotFoundError`), on a file holding
      `audio`. */
  function Played(argv: Option<seq<string>>, audio: Option<Bytes>): (r: seq<Playback>)
    ensures |r| <= 1 && (r != [] <==> argv.Some?)
    ensures forall i | 0 <= i < |r| :: r[i].argv == argv.value && r[i].audio == audio
  {
    if argv.Some? then [Playback(argv.value, audio)] else []
  }

  /** How a script ends when `play_sound` is its last step. */
  function PlayOutcome(argv: Option<seq<string>>): (o: Outcome)
    ensures o.Exit? <==> argv.Some?
    ensures o.Exit? ==> o.code == 0
    ensures o.Raised? ==> o.error == PlayerNotFoundError
  {
    if argv.Some? then Exit(0) else Raised(PlayerNotFoundError)
  }
}
