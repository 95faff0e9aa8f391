/** Which game, if any, is running, from a list of process names. */
module Gamewatch {
  import opened Text

  datatype Game = Game(id: string, processNames: seq<string>)

  datatype GameState = GameState(gameID: string, process: string) {
    predicate Running() { gameID != "" }
  }

  const NO_GAME := GameState("", "")

  class Watcher {
    const games: seq<Game>
    var cur: GameState

    constructor (games: seq<Game>)
      ensures this.games == games && cur == NO_GAME
    {
      this.games, cur := games, NO_GAME;
    }

    method Poll(running: seq<string>) returns (next: GameState, changed: bool)
      modifies this
      ensures next == cur == MatchOf(games, Names(running))
      ensures changed <==> cur != old(cur)
    {
      next := Match(running);
      changed := next != cur;
      cur := next;
    }

    method Match(running: seq<string>) returns (s: GameState)
      ensures s == MatchOf(games, Names(running))
    {
      var names := {};
      for i := 0 to |running|
        invariant names == Names(running[..i])
      {
        names := names + {Normalise(running[i])};
        assert running[..i + 1] == running[..i] + [running[i]];
      }
      assert running[..|running|] == running;
      for g := 0 to |games|
        invariant MatchOf(games, names) == MatchOf(games[g..], names)
      {
        assert games[g..][1..] == games[g + 1..];
        var ps := games[g].processNames;
        for n := 0 to |ps|
          invariant FirstIn(ps, names) == FirstIn(ps[n..], names)
        {
          assert ps[n..][1..] == ps[n + 1..];
          if Normalise(ps[n]) in names {
            return GameState(games[g].id, ps[n]);
          }
        }
      }
      return NO_GAME;
    }
  }

  // Case folding, for ASCII names.

  function Lower(c: char): char {
    if 'A' <= c <= 'Z' then c + ('a' - 'A') else c
  }

  function ToLower(s: string): string {
    seq(|s|, i requires 0 <= i < |s| => Lower(s[i]))
  }

  function TrimSuffix(s: string, suffix: string): string {
    if |suffix| <= |s| && s[|s| - |suffix|..] == suffix then s[..|s| - |suffix|] else s
  }

  function Normalise(name: string): string {
    TrimSuffix(ToLower(TrimSpace(name)), ".exe")
  }

  ghost function Names(running: seq<string>): set<string> {
    set p | p in running :: Normalise(p)
  }

  ghost function FirstIn(processNames: seq<string>, names: set<string>): seq<string> {
    if processNames == [] then []
    else if Normalise(processNames[0]) in names then [processNames[0]]
    else FirstIn(processNames[1..], names)
  }

  ghost function MatchOf(games: seq<Game>, names: set<string>): GameState {
    if games == [] then NO_GAME
    else
      var f := FirstIn(games[0].processNames, names);
      if f != [] then GameState(games[0].id, f[0]) else MatchOf(games[1..], names)
  }

  ghost predicate IsUp(g: Game, names: set<string>) {
    exists i :: 0 <= i < |g.processNames| && Normalise(g.processNames[i]) in names
  }

  lemma {:induction false} FirstInMeans(ps: seq<string>, names: set<string>)
    ensures FirstIn(ps, names) != [] <==> exists i :: 0 <= i < |ps| && Normalise(ps[i]) in names
  {
    if ps != [] && Normalise(ps[0]) !in names {
      FirstInMeans(ps[1..], names);
      if i :| 0 <= i < |ps| && Normalise(ps[i]) in names {
        assert ps[1..][i - 1] == ps[i];
      }
      if i :| 0 <= i < |ps[1..]| && Normalise(ps[1..][i]) in names {
        assert ps[i + 1] == ps[1..][i];
      }
    }
  }

  /** The first configured game that is up is the one reported, with the first of its
      processes that runs, whatever else does. */
  lemma {:induction false} FirstConfiguredGameWins(games: seq<Game>, names: set<string>, k: nat)
    requires k < |games| && IsUp(games[k], names)
    requires forall i :: 0 <= i < k ==> !IsUp(games[i], names)
    ensures MatchOf(games, names).gameID == games[k].id
    ensures exists i: nat :: FirstUp(games[k].processNames, names, i) && MatchOf(games, names).process == games[k].processNames[i]
  {
    FirstInMeans(games[0].processNames, names);
    if k > 0 {
      assert !IsUp(games[0], names);
      forall i | 0 <= i < k - 1 ensures !IsUp(games[1..][i], names) { assert games[1..][i] == games[i + 1]; }
      FirstConfiguredGameWins(games[1..], names, k - 1);
    } else {
      var i := FirstInIsFirst(games[0].processNames, names);
    }
  }

  ghost predicate FirstUp(ps: seq<string>, names: set<string>, i: nat) {
    && i < |ps| && Normalise(ps[i]) in names
    && forall j :: 0 <= j < i ==> Normalise(ps[j]) !in names
  }

  lemma {:induction false} FirstInIsFirst(ps: seq<string>, names: set<string>) returns (i: nat)
    requires FirstIn(ps, names) != []
    ensures FirstUp(ps, names, i) && FirstIn(ps, names) == [ps[i]]
  {
    if Normalise(ps[0]) in names {
      i := 0;
    } else {
      var j := FirstInIsFirst(ps[1..], names);
      i := j + 1;
      forall m | 0 <= m < i ensures Normalise(ps[m]) !in names { assert m > 0 ==> ps[m] == ps[1..][m - 1]; }
    }
  }

  /** When no configured game is up none is reported, and nothing counts as running. */
  lemma {:induction false} NoGameMeansNotRunning(games: seq<Game>, names: set<string>)
    requires forall g :: g in games ==> !IsUp(g, names)
    ensures MatchOf(games, names) == GameState("", "") && !MatchOf(games, names).Running()
  {
    if games != [] {
      FirstInMeans(games[0].processNames, names);
      assert !IsUp(games[0], names);
      NoGameMeansNotRunning(games[1..], names);
    }
  }

  /** `t` is `s` but for capital letters. */
  predicate SameButCase(t: string, s: string) {
    |t| == |s| && forall i :: 0 <= i < |s| ==>
      t[i] == s[i] || ('a' <= s[i] <= 'z' && t[i] as int == s[i] as int - 32)
  }

  /** A process is known by its name whatever its case, the blanks around it, and a
      trailing `.exe`. */
  lemma ProcessIsKnownByName(before: string, t: string, after: string, name: string, exe: bool)
    requires Blank(before) && Blank(after) && SameButCase(t, name + if exe then ".exe" else "")
    requires name != "" && !BlankChar(name[0]) && !BlankChar(name[|name| - 1])
    requires forall i :: 0 <= i < |name| ==> !('A' <= name[i] <= 'Z')
    requires !exe ==> !(|name| >= 4 && name[|name| - 4..] == ".exe")
    ensures Normalise(before + t + after) == name
  {
    var full := name + if exe then ".exe" else "";
    assert full[0] == name[0] && full[|full| - 1] == if exe then 'e' else name[|name| - 1];
    TrimSpaceMeans(before, t, after);
    assert ToLower(t) == full;
    if exe {
      assert full[|full| - 4..] == ".exe" && full[..|full| - 4] == name;
    }
  }
}
