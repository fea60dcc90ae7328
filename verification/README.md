# Tournament bracket generator — a verified model of the bracket core

The program is a desktop single-elimination bracket tool written in Rust.
It has a roster of participants and four match formats (1v1 to 4v4). When the
bracket is generated it cuts the roster into teams of the format's size, pairs
the teams two by two into matches, and lets the user type scores. The
next-round operation (`next_round`) records the champion when a single match is
left, and replaces the matches by the winners of the current round paired two by
two. The ongoing view, however, rebuilds round 1 from the roster on every frame
(`src/ui.rs:133-136`), before it handles the button. So in the running program
the pairs `next_round` produces are overwritten on the next frame, and a bracket
with more than one match never gets past round 1. The model states what
`next_round` does; the per-frame rebuild is listed under "Left out".

This project models that core in Dafny:

- `tournament.dfy`, module `Tournament`, models `src/tournament.rs`. It holds
  the value types (`Participant`, `Team`, `MatchNode`, `MatchType`,
  `TournamentType`), the format-to-size map and the winner rule, with the
  three loops of that file as methods: team formation (`CreateTeams`), pairing
  (`PairTeams`) and winner collection (`CollectWinners`). The display string
  loop is `TeamToString`. Each method is proved against a specification
  function (`Chunks`, `Pairs`, `Winners`, `Joined`). The lemmas state what
  these functions guarantee: the partition, the counts, the pairing order,
  the halving of rounds, termination from 2^k matches and the tie policy.
- `session.dfy`, module `Session`, models the session record of `src/ui.rs`.
  `TournamentUI` is a class with the record's seven fields. Its methods are the
  updates the render code makes to it: the format and tournament-type radio
  selections, adding a participant, the generate-bracket gate with the
  PreMatch→Ongoing transition, the score entry, and the round advance with its
  counter bump. The module also holds `GenerateMatches` and
  `NextRound` from `src/tournament.rs`. They take the session by mutable
  reference, and Dafny modules cannot import each other in a cycle as the two
  Rust modules do, so they live beside the class.

The class invariant `Valid()` says two things. Every current match has both
teams, which is what makes the `unwrap` in `is_winner` safe. And the session is
never `Finished`, because no code assigns that state. Every method preserves it.

Three facts about the code that the model keeps as they are:

- No code assigns `Finished`, so the session never leaves PreMatch/Ongoing.
- The generate-bracket gate is `len % size == 0 && len >= 2`. It does not ask
  for an even number of teams (see `CheckParticipantsAdmitsOddTeams`).
- A tied final sets the champion to `None`, while `is_winner` on the same
  match advances team2 (see `FinalWinnerVersusIsWinner`).

## Model

| member | source | states |
|---|---|---|
| `Tournament.TypeToNumber` | src/tournament.rs:36-44 | a format's team size is between 1 and 4; size 1 is exactly 1v1 and size 4 exactly 4v4 |
| `Tournament.TypeToNumberInjective` | src/tournament.rs:37-44 | distinct formats have distinct team sizes |
| `Tournament.CreateTeams` | src/tournament.rs:92-109 | the nested push loops produce exactly the consecutive chunks of the format's size (`Chunks`) |
| `Tournament.RosterOfChunks` | src/tournament.rs:100-108 | concatenating the members of the teams, in order, gives back the roster exactly |
| `Tournament.ChunksCount` | src/tournament.rs:100-108 | there are ⌈n/k⌉ teams, that is (n+k−1)/k |
| `Tournament.ChunkSizes` | src/tournament.rs:100-108 | every team but the last has k members, the last has 1..k, and if k divides n every team has k |
| `Tournament.FullChunksDivide` | src/tournament.rs:100-108 | if every team formed is full, the roster size is a multiple of k |
| `Tournament.PairTeams` | src/tournament.rs:117-126 | the chunks(2) loop yields exactly `Pairs(teams)`; the same loop ends `next_round` (lines 148-157) |
| `Tournament.PairsAt` | src/tournament.rs:117-126 | pairing gives ⌊t/2⌋ matches; match i is team 2i against team 2i+1, both scores 0 |
| `Tournament.PairsComplete` | src/tournament.rs:118-124 | every paired match has both teams; with an odd team count the last team is in no match |
| `Tournament.CompleteResolvable` | src/tournament.rs:48-54 | a round whose matches all have both teams never unwraps an empty slot |
| `Tournament.IsWinner` | src/tournament.rs:47-54 | the winner is one of the match's two teams: team1 if score1 > score2, otherwise team2, so ties go to team2 |
| `Tournament.FinalWinnerVersusIsWinner` | src/tournament.rs:131-139 | the champion of a final equals `is_winner` iff the final is not tied; a tied final records no champion while `is_winner` still gives team2 |
| `Tournament.FinalWinner` | src/tournament.rs:131-138 | the champion of a one-match round is one of its two teams or none; for a match with both teams it is none exactly when the scores are equal |
| `Tournament.FinalWinnerSymmetric` | src/tournament.rs:131-138 | listing the two teams (and their scores) the other way round gives the same champion |
| `Tournament.CollectWinners` | src/tournament.rs:141-145 | the winners list has one entry per match, the i-th being the winner of match i |
| `Tournament.RoundHalves` | src/tournament.rs:141-157 | m matches become ⌊m/2⌋ complete 0–0 matches between the winners of matches 2i and 2i+1; one match becomes none |
| `Tournament.Termination` | src/tournament.rs:130-157 | from 2^k matches, whatever scores are entered, round j has 2^(k−j) matches; after k rounds one match is left, and the round after it is empty |
| `Tournament.FourPlayerScenario` | src/tournament.rs:92-157 | four singles players A, B, C, D give A–B and C–D; after 2–1 and 0–3 the next round is A–D; 1–4 makes D champion |
| `Tournament.TeamToString` | src/tournament.rs:57-73 | the indexed loop builds `Joined`: "" for no members, the name for one, "A, B & C" (first, ", name" for each middle, " & last") otherwise |
| `Session.TrimStart` | src/ui.rs:106 | the result is a suffix without leading whitespace, the removed prefix is all whitespace, and the result is empty iff the text is all whitespace |
| `Session.TrimEnd` | src/ui.rs:106 | the result is a prefix without trailing whitespace, the removed suffix is all whitespace, and the result is empty iff the text is all whitespace |
| `Session.TrimEmptyIffBlank` | src/ui.rs:106 | the trimmed name is empty exactly when every character is Unicode whitespace |
| `Session.CheckParticipants` | src/ui.rs:119-120 | the gate holds iff there are at least two players and the roster is a whole number of teams; when it holds there are at least as many players as one team needs |
| `Session.CheckParticipantsIffFullTeams` | src/ui.rs:119-120 | the gate holds iff there are at least two players and every team `create_teams` forms is full |
| `Session.CheckParticipantsExamples` | src/ui.rs:119-120 | 5 players in 2v2 fail the gate, 6 pass, 0 or 1 players never pass |
| `Session.CheckParticipantsAdmitsOddTeams` | src/ui.rs:119-120 | three singles players pass the gate, and pairing then leaves the third team out |
| `Session.TournamentUI.constructor` | src/ui.rs:23-33 | empty roster, 1v1, round robin, PreMatch, no winner, round 0, no matches |
| `Session.TournamentUI.SelectMatchType` | src/ui.rs:56-62 | the chosen radio button becomes the match format; nothing else changes |
| `Session.TournamentUI.SelectTournamentType` | src/ui.rs:66-86 | the chosen radio button becomes the tournament type; nothing else changes |
| `Session.TournamentUI.AddParticipant` | src/ui.rs:105-111 | a name that is not all whitespace is appended untrimmed and the buffer is cleared; otherwise roster and buffer are unchanged; the old roster is always a prefix of the new one |
| `Session.TournamentUI.GenerateBracket` | src/ui.rs:119-128 | PreMatch becomes Ongoing iff the gate holds; this is the only change of `state` |
| `Session.TournamentUI.SetScores` | src/ui.rs:144-170 | the score entry changes only the two scores of one match, never its teams |
| `Session.TournamentUI.AdvanceRound` | src/ui.rs:187-190 | runs `next_round`, then adds 1 to the `u8` round counter modulo 256; the session invariant is kept |
| `Session.GenerateMatches` | src/tournament.rs:111-127 | the previous matches are replaced by `Pairs(Chunks(roster, size))`: ⌊teams/2⌋ complete matches |
| `Session.NextRound` | src/tournament.rs:130-158 | one remaining match sets the champion (team1, team2, or none on a tie); any other count leaves it unchanged; the matches become `Round(old)`, ⌊m/2⌋ complete matches |

## Left out

- Rendering is not modelled: panels, layouts, labels, tooltips, scroll areas, buttons and the eframe bootstrap in `src/main.rs`. These are calls into the GUI library. The model treats each button press as a method call.
- The `DragValue` widget clamps scores to 0..=100. This is widget behaviour: `SetScores` accepts any integer.
- Scores are `i32` in the program and unbounded integers here. They are only compared, never added, so the width does not matter.
- `TEMP_NAME` is a process-wide `static mut` used under `unsafe`. Here it is the parameter and out-parameter of `AddParticipant`.
- Every frame of the ongoing view sets `round_number` to 1 and rebuilds round 1 from the roster. This re-invocation (`src/ui.rs:133-136`) is not modelled. In the program it overwrites the result of `next_round` and any scores entered on an earlier frame. `GenerateMatches` and `AdvanceRound` are modelled as separate operations.
- `TournamentType` is kept as a field only. Double elimination and round robin can be selected but have no behaviour.
- The `Finished` state is never entered, because no code assigns it. So the finished view and its champion display are unreachable in the program. `Valid()` records this.
- The commented-out alternative `create_teams` is not modelled.
- Session.TournamentUI.AdvanceRound: the `u8` counter is modelled with the wrap-around of a release build; a debug build panics instead when the counter passes 255. In the program neither can happen, because every frame of the ongoing view resets the counter to 1 before the button can add 1, so it never exceeds 2.
- Session.TournamentUI.SelectMatchType, SelectTournamentType, AddParticipant, GenerateBracket, SetScores and AdvanceRound require the view that shows their widget: PreMatch for the first four, Ongoing for the other two.
