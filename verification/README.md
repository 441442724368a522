# Single-poll voting: a Dafny model of the vote request

This project models the one poll of the simple JSON-file variant of the voting
application. The poll is two tables:

- `opcoes`: each option name mapped to the list of its voters' names.
- `votos_por_ip`: each client address mapped to the option it voted for.

A `POST /votar` request (`votar`) carries a voter name `nome`, an optional
listed option `opcao` and an optional new option `nova_opcao`. It ends in
exactly one of six outcomes:

- refused because the address is blocked (HTTP 403);
- refused because the address has already voted;
- refused because the proposed new option already exists;
- a new option is created with this vote as its first;
- the vote is appended to a listed option, or to one created implicitly;
- nothing is chosen and nothing is recorded.

The model is two modules:

- `Results` (`results.dfy`) covers the results list shown on the page. `Tally`
  gives one `Row` per option in the order the options were added, with the
  length of its voter list. `Total` adds the rows up. Two lemmas say how an
  accepted vote changes that total.
- `Voting` (`voting.dfy`) holds the rest:
  - the class `Ballot`, whose fields are the two tables plus `order`, the
    insertion order of the option table's keys. Python dictionaries keep that
    order, and the page lists the options in it;
  - the default poll, built by the constructor;
  - the method `Vote`, which states each outcome's effect on the tables
    exactly;
  - the invariant `Consistent`, proved to hold in the default poll and to be
    kept by every outcome.

`Consistent` says four things:

- every option is listed in `order` exactly once;
- every recorded address names an existing option;
- each option's voter count equals the number of addresses recorded for it;
- the displayed total equals the number of addresses that have voted.

So each accepted vote raises the displayed total by exactly one.

A form field counts as supplied (`Given`) when it is present and not empty.
This matches the Python truth test on `nova_opcao` and `opcao`. A field of
blanks is supplied. Option names are compared exactly and case-sensitively.
A listed choice that is not yet an option is created implicitly, the way
`setdefault` does it, and is listed last.

Three client methods, `NewOptionScenario`, `ExistingOptionScenario` and
`RefusedScenario`, use only `Vote`'s contract. They show these outcomes on the
default poll:

- "animes" becomes a new option beside "Animes";
- a second vote from the same address is refused;
- a taken name is refused as a new option;
- an empty new option leaves the listed choice in force;
- a blocked address is refused;
- a request with no option records nothing.

Option names are compared exactly: `main.py` tests the key as given (line 88),
with no case folding and no trimming, and only tests the field for truth
(line 87).

## Model

| member | source | states |
|---|---|---|
| `Voting.Blocked` | main.py:21-23 | the address guard: an address is refused exactly when it is in the blocked set; `Vote` tests it before any table is read or changed |
| `Voting.Given` | main.py:87-94 | a form field is supplied exactly when it is present and not empty, as the Python truth tests on `nova_opcao` (line 87) and `opcao` (line 94) decide |
| `Voting.FieldTruth` | main.py:87-94 | a missing field and an empty one are not supplied; every other sent text is, blanks included, since nothing is trimmed |
| `Voting.Voters` | main.py:95 | the list `setdefault(opcao, [])` returns: the option's voters, or a new empty list when the option is absent |
| `Voting.SetDefaultAppend` | main.py:95 | `setdefault(opcao, []).append(nome)` makes `opcao` a key whose list is its old list (or the empty list) with `nome` at the end, and leaves every other option's list unchanged |
| `Results.Tally` | main.py:62-63 | the results list has one line per option, in insertion order, and each line shows its option's name and the length of its voter list |
| `Results.TotalAfterNewOption` | main.py:90-91 | adding an absent option with the single voter `[nome]` as the last key adds one last line showing 1 vote, leaves the earlier lines unchanged, and raises the displayed total by one |
| `Results.TotalAfterAppend` | main.py:95 | appending a voter to an option listed once raises the displayed total by exactly one |
| `Voting.DefaultIsConsistent` | main.py:15 | the default poll ("Deuses Gregos", "Animes", no votes, no addresses) is consistent, and both options show 0 votes in that order |
| `Voting.AddressesAfterVote` | main.py:92-96 | recording a first vote from an address adds exactly that address to the chosen option's address set, leaves every other option's set unchanged, and so raises only the chosen option's count, by one |
| `Voting.OrderAfterAccept` | main.py:90-96 | an accepted vote lists a new option last and once, keeps every option listed, and raises the displayed total by one |
| `Voting.CountsAfterAccept` | main.py:90-96 | an accepted vote from an address that has not voted keeps every recorded option a key of `opcoes`, and keeps each option's voter count equal to its number of recorded addresses |
| `Voting.AcceptKeepsConsistent` | main.py:84-96 | both accepting branches keep the whole invariant, and the displayed total rises by exactly one: creating `nova_opcao` and appending to `opcao` through `setdefault` |
| `Voting.Ballot.constructor` | main.py:15 | the poll used when no saved poll exists has the two default options, no voters and no addresses, and is consistent |
| `Voting.Ballot.Vote` | main.py:78-99 | the address guard comes first: a blocked address gets Forbidden with nothing changed. An address already recorded gets AlreadyVoted with nothing changed. A supplied `nova_opcao` takes precedence over `opcao`. If it is already a key it gives OptionExists with nothing changed. Otherwise it becomes a new last option with voters `[nome]`, recorded for the address. Otherwise a supplied `opcao` gets `nome` appended to its list, created empty if absent and listed last, and is recorded for the address. Otherwise the outcome is NothingChosen with nothing changed. An accepted vote always adds exactly one address; on a consistent poll, consistency is kept and the displayed total rises by one |
| `Voting.Ballot.Results` | main.py:62-63 | the loop over the options builds exactly the results list `Tally` describes |

## Left out

- Request routing, form parsing and response building are framework glue and are not modelled (main.py:1-5, 25-27, 78-79). The outcomes are the `Outcome` datatype instead. The framework also rejects a request without `nome` before `votar` runs; that check is not modelled.
- Reading and writing `votacao.json` is file I/O and is not modelled (main.py:10-19). Only the default poll of line 15 is kept, as the constructor. A saved file may hold any tables, so `Vote` does not require `Consistent`. It promises only to keep `Consistent` when it already held. A loaded file without `votos_por_ip`, which makes line 92 or 96 fail in Python, is not modelled.
- HTML and CSS building is presentation and is not modelled (main.py:29-76). Only the per-option count of lines 62-63 is kept, as `Tally`. The radio buttons (line 52-53) and the list of voters (lines 66-69) are not modelled.
- The blocklist is a process-global that nothing ever fills: the literal `{}` at main.py:8. It becomes the explicit `blocked` parameter of `Vote`.
- Concurrent requests and the lost update between loading and saving are concurrency and are not modelled. Each `Vote` call is one request run alone.
- The database-backed variants are not part of this model: several polls, participants joining and leaving, and case-insensitive name matching. None of them is in `main.py`.
