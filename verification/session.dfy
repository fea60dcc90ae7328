/**
 * The session state the user interface keeps (`TournamentUI`), the rules
 * its pre-match and ongoing views apply to it, and the two bracket operations
 * that rewrite its matches: `GenerateMatches` and `NextRound`.
 */
module Session {
  import opened Tournament

  /** The width of the round counter. */
  newtype u8 = x: int | 0 <= x < 256

  datatype TournamentUIState = PreMatch | Ongoing | Finished

  // ---------------------------------------------------------------------------
  // The add-participant guard

  /** Unicode White_Space, the set Rust's `char::is_whitespace` and `str::trim` use. */
  predicate IsWhitespace(c: char)
  {
    ('\t' <= c <= '\r') || c == ' ' || c == '\U{0085}' || c == '\U{00A0}' || c == '\U{1680}'
    || ('\U{2000}' <= c <= '\U{200A}') || c == '\U{2028}' || c == '\U{2029}' || c == '\U{202F}'
    || c == '\U{205F}' || c == '\U{3000}'
  }

  predicate IsBlank(s: string)
  {
    forall i :: 0 <= i < |s| ==> IsWhitespace(s[i])
  }

  /** `s` without its leading whitespace. */
  function TrimStart(s: string): (r: string)
    ensures |r| <= |s| && r == s[|s| - |r|..]
    ensures r == [] || !IsWhitespace(r[0])
    ensures r == [] <==> IsBlank(s)
    ensures IsBlank(s[..|s| - |r|])
    decreases |s|
  {
    if s != [] && IsWhitespace(s[0]) then TrimStart(s[1..]) else s
  }

  /** `s` without its trailing whitespace. */
  function TrimEnd(s: string): (r: string)
    ensures |r| <= |s| && r == s[..|r|]
    ensures r == [] || !IsWhitespace(r[|r| - 1])
    ensures r == [] <==> IsBlank(s)
    ensures IsBlank(s[|r|..])
    decreases |s|
  {
    if s != [] && IsWhitespace(s[|s| - 1]) then TrimEnd(s[..|s| - 1]) else s
  }

  function Trim(s: string): string
  {
    TrimEnd(TrimStart(s))
  }

  /** The trimmed name is empty exactly when the name is all whitespace. */
  lemma TrimEmptyIffBlank(s: string)
    ensures Trim(s) == [] <==> IsBlank(s)
  {
    var t := TrimStart(s);
    if t != [] {
      assert !IsWhitespace(t[0]);
    }
  }

  // ---------------------------------------------------------------------------
  // The generate-bracket gate

  /** The gate on the "Generate Bracket" button: at least two players, a whole number of teams. */
  predicate CheckParticipants(participants: seq<Participant>, matchType: MatchType): (ok: bool)
    ensures ok <==> |participants| >= 2 && Multiple(|participants|, TypeToNumber(matchType))
    ensures ok ==> |participants| >= TypeToNumber(matchType)
  {
    MultipleIffMod(|participants|, TypeToNumber(matchType));
    |participants| % TypeToNumber(matchType) == 0 && |participants| >= 2
  }

  /** The gate opens exactly when there are two or more players and every team formed is full. */
  lemma CheckParticipantsIffFullTeams(participants: seq<Participant>, matchType: MatchType)
    ensures var teams := Chunks(participants, TypeToNumber(matchType));
      CheckParticipants(participants, matchType) <==>
        |participants| >= 2 && forall i :: 0 <= i < |teams| ==> |teams[i].members| == TypeToNumber(matchType)
  {
    var k := TypeToNumber(matchType);
    var teams := Chunks(participants, k);
    ChunkSizes(participants, k);
    if forall i :: 0 <= i < |teams| ==> |teams[i].members| == k {
      FullChunksDivide(participants, k);
    }
  }

  /** Five players in doubles are refused, six accepted; none or one player never pass. */
  lemma CheckParticipantsExamples(p: seq<Participant>, t: MatchType)
    ensures |p| == 5 ==> !CheckParticipants(p, TwoVsTwo)
    ensures |p| == 6 ==> CheckParticipants(p, TwoVsTwo)
    ensures |p| <= 1 ==> !CheckParticipants(p, t)
  {
  }

  /** The gate does not ask for an even number of teams: three singles pass it, and pairing
      then leaves the third team out of every match. */
  lemma CheckParticipantsAdmitsOddTeams(a: Participant, b: Participant, c: Participant)
    ensures CheckParticipants([a, b, c], OneVsOne)
    ensures |Chunks([a, b, c], TypeToNumber(OneVsOne))| == 3
    ensures Pairs(Chunks([a, b, c], TypeToNumber(OneVsOne))) == [MatchNode(Some(Team([a])), Some(Team([b])), 0, 0)]
  {
    var s := [a, b, c];
    assert s[..1] == [a] && s[1..] == [b, c];
    assert [b, c][..1] == [b] && [b, c][1..] == [c];
    var teams := [Team([a]), Team([b]), Team([c])];
    ChunksUnfold([c], 1);
    ChunksUnfold([b, c], 1);
    assert Chunks(s, 1) == teams;
    assert teams[2..] == [Team([c])];
  }

  // ---------------------------------------------------------------------------
  // The session

  class TournamentUI {
    var participants: seq<Participant>
    var matchType: MatchType
    var tournamentType: TournamentType
    var state: TournamentUIState
    var roundNumber: u8
    var matches: seq<MatchNode>
    var winner: Option<Team>

    /** Every current match has both teams, so the winner rule never unwraps an empty slot;
        and the session never reaches Finished, since nothing assigns it. */
    ghost predicate Valid()
      reads this
    {
      AllComplete(matches) && state != Finished
    }

    /** `TournamentUI::new`. */
    constructor ()
      ensures Valid()
      ensures participants == [] && matchType == OneVsOne && tournamentType == RoundRobin
      ensures state == PreMatch && winner == None && roundNumber == 0 && matches == []
    {
      participants := [];
      matchType := OneVsOne;
      tournamentType := RoundRobin;
      state := PreMatch;
      winner := None;
      roundNumber := 0;
      matches := [];
    }

    /** The "Match Type" radio buttons. */
    method SelectMatchType(t: MatchType)
      requires Valid() && state == PreMatch
      modifies this`matchType
      ensures Valid() && matchType == t
    {
      matchType := t;
    }

    /** The "Tournament Type" radio buttons. */
    method SelectTournamentType(t: TournamentType)
      requires Valid() && state == PreMatch
      modifies this`tournamentType
      ensures Valid() && tournamentType == t
    {
      tournamentType := t;
    }

    /** The "Add Participant" button: a name that is not all whitespace joins the roster as typed
        and the text field is cleared; otherwise nothing changes. Returns the text field's new contents. */
    method AddParticipant(tempName: string) returns (buffer: string)
      requires Valid() && state == PreMatch
      modifies this`participants
      ensures Valid()
      ensures old(participants) <= participants
      ensures !IsBlank(tempName) ==> participants == old(participants) + [Participant(tempName)] && buffer == ""
      ensures IsBlank(tempName) ==> participants == old(participants) && buffer == tempName
    {
      buffer := tempName;
      TrimEmptyIffBlank(tempName);
      if Trim(tempName) != "" {
        participants := participants + [Participant(tempName)];
        buffer := "";
      }
    }

    /** The "Generate Bracket" button, enabled only when the gate holds: the one assignment to `state`. */
    method GenerateBracket()
      requires Valid() && state == PreMatch
      modifies this`state
      ensures Valid()
      ensures state == (if CheckParticipants(participants, matchType) then Ongoing else PreMatch)
    {
      var checkParticipants := |participants| % TypeToNumber(matchType) == 0 && |participants| >= 2;
      if checkParticipants {
        state := Ongoing;
      }
    }

    /** The score fields of match `i` as the ongoing view writes them. */
    method SetScores(i: nat, score1: int, score2: int)
      requires Valid() && state == Ongoing && i < |matches|
      modifies this`matches
      ensures Valid()
      ensures matches == old(matches)[i := old(matches)[i].(score1 := score1, score2 := score2)]
      ensures SameTeams(matches, old(matches))
    {
      matches := matches[i := matches[i].(score1 := score1, score2 := score2)];
    }

    /** The "Next Round" / "Finish Tournament" button: advance the bracket, then count the round
        (a `u8` that wraps past 255). */
    method AdvanceRound()
      requires Valid() && state == Ongoing
      modifies this`matches, this`winner, this`roundNumber
      ensures Valid()
      ensures AllResolvable(old(matches)) && matches == Round(old(matches))
      ensures |matches| == |old(matches)| / 2
      ensures winner == if |old(matches)| == 1 then FinalWinner(old(matches)[0]) else old(winner)
      ensures roundNumber as int == (old(roundNumber) as int + 1) % 256
    {
      CompleteResolvable(matches);
      NextRound(this);
      roundNumber := ((roundNumber as int + 1) % 256) as u8;
    }
  }

  // ---------------------------------------------------------------------------
  // The bracket operations on the session

  /** `generate_matches`: the previous matches are replaced by the roster's teams paired in order. */
  method GenerateMatches(ui: TournamentUI)
    modifies ui`matches
    ensures ui.matches == Pairs(Chunks(ui.participants, TypeToNumber(ui.matchType)))
    ensures |ui.matches| == |Chunks(ui.participants, TypeToNumber(ui.matchType))| / 2
    ensures AllComplete(ui.matches)
  {
    ui.matches := [];
    var teams := CreateTeams(ui.participants, ui.matchType);
    var paired := PairTeams(teams);
    ui.matches := ui.matches + paired;
    PairsAt(teams);
    PairsComplete(teams);
  }

  /** `next_round`: a single remaining match decides the champion (none on a tie); then the
      winners of all matches are paired into the next round. */
  method NextRound(ui: TournamentUI)
    requires AllResolvable(ui.matches)
    modifies ui`matches, ui`winner
    ensures ui.matches == Round(old(ui.matches))
    ensures |ui.matches| == |old(ui.matches)| / 2 && AllComplete(ui.matches)
    ensures ui.winner == if |old(ui.matches)| == 1 then FinalWinner(old(ui.matches)[0]) else old(ui.winner)
  {
    if |ui.matches| == 1 {
      if ui.matches[0].score1 > ui.matches[0].score2 {
        ui.winner := ui.matches[0].team1;
      } else if ui.matches[0].score1 < ui.matches[0].score2 {
        ui.winner := ui.matches[0].team2;
      } else {
        ui.winner := None;
      }
    }
    var teams := CollectWinners(ui.matches);
    assert teams == Winners(ui.matches);
    RoundHalves(ui.matches);
    ui.matches := [];
    var paired := PairTeams(teams);
    ui.matches := ui.matches + paired;
  }
}
