/** The single implicit poll: a table from option names to the names of their
    voters, and a table from client addresses to the option each voted for.
    A vote request is refused, recorded or ignored, and every outcome changes
    the two tables in one exactly stated way. */
module Voting {
  import opened Results

  /** A form field that may be missing from the request. */
  datatype Field<T> = Missing | Sent(value: T)

  /** A form field counts as supplied when it is present and not empty: a
      missing field and an empty one are both false in a Python test, and
      anything else, blanks included, is true. */
  predicate Given(field: Field<string>)
  {
    field.Sent? && field.value != ""
  }

  /** No field and an empty field are not supplied; any other text is,
      blanks included. */
  lemma FieldTruth()
    ensures !Given(Missing) && !Given(Sent(""))
    ensures forall s: string :: s != "" ==> Given(Sent(s))
  {
  }

  /** The address guard: a blocked address is refused before anything else. */
  predicate Blocked(blocked: set<string>, ip: string)
  {
    ip in blocked
  }

  /** The voters of `name`, or no one if `name` is not an option yet: the list
      Python's `setdefault(name, [])` hands back. */
  function Voters(options: map<string, seq<string>>, name: string): (voters: seq<string>)
  {
    if name in options then options[name] else []
  }

  /** The addresses recorded as having voted for `name`. */
  function AddressesFor(votesByAddress: map<string, string>, name: string): (addresses: set<string>)
  {
    set a | a in votesByAddress && votesByAddress[a] == name
  }

  /** Appending a voter through `setdefault` makes `name` an option whose
      list is its old list, or the empty one, followed by the voter, and
      leaves every other option and its voters as they were. */
  lemma SetDefaultAppend(options: map<string, seq<string>>, name: string, voter: string)
    ensures var options' := options[name := Voters(options, name) + [voter]];
            && options'.Keys == options.Keys + {name}
            && options'[name][..|options'[name]| - 1] == Voters(options, name)
            && options'[name][|options'[name]| - 1] == voter
            && (name !in options ==> options'[name] == [voter])
            && (forall other :: other in options && other != name ==> options'[other] == options[other])
  {
  }

  /** What one vote request ends in. */
  datatype Outcome =
    | Forbidden                     // the address is blocked: 403
    | AlreadyVoted                  // the address has voted before
    | OptionExists                  // the new option's name is taken
    | OptionCreated(option: string) // a new option, with this vote as its first
    | VoteRecorded(option: string)  // a vote for a listed or implicitly added option
    | NothingChosen                 // no option given: nothing is recorded
  {
    predicate Accepted()
    {
      OptionCreated? || VoteRecorded?
    }
  }

  /** The options offered when no saved poll exists. */
  const DefaultOrder: seq<string> := ["Deuses Gregos", "Animes"]
  const DefaultOptions: map<string, seq<string>> := map["Deuses Gregos" := [], "Animes" := []]

  /** The agreement between the two tables, and between the options and the
      order in which they are listed. */
  ghost predicate Consistent(options: map<string, seq<string>>, order: seq<string>,
                             votesByAddress: map<string, string>)
  {
    && Listed(options, order)
    && Distinct(order)
    && (forall name :: name in options ==> name in order)
    && (forall a :: a in votesByAddress ==> votesByAddress[a] in options)
    && (forall name :: name in options ==> |options[name]| == |AddressesFor(votesByAddress, name)|)
    && Total(Tally(options, order)) == |votesByAddress|
  }

  /** The default poll lists both default options with no votes, and is
      consistent. */
  lemma DefaultIsConsistent()
    ensures Consistent(DefaultOptions, DefaultOrder, map[])
    ensures Tally(DefaultOptions, DefaultOrder) == [Row("Deuses Gregos", 0), Row("Animes", 0)]
    ensures Total(Tally(DefaultOptions, DefaultOrder)) == 0
  {
  }

  /** Recording a first vote from `ip` adds it to the addresses of `name` and
      to no other option's. */
  lemma AddressesAfterVote(votesByAddress: map<string, string>, ip: string, name: string, other: string)
    requires ip !in votesByAddress
    ensures AddressesFor(votesByAddress[ip := name], name) == AddressesFor(votesByAddress, name) + {ip}
    ensures other != name ==> AddressesFor(votesByAddress[ip := name], other) == AddressesFor(votesByAddress, other)
    ensures |AddressesFor(votesByAddress[ip := name], other)|
         == |AddressesFor(votesByAddress, other)| + (if other == name then 1 else 0)
  {
  }

  /** An accepted vote lists a new option last and exactly once, and raises
      the displayed total by one. */
  lemma OrderAfterAccept(options: map<string, seq<string>>, order: seq<string>, name: string, voter: string)
    requires Listed(options, order) && Distinct(order)
    requires forall other :: other in options ==> other in order
    ensures var options' := options[name := Voters(options, name) + [voter]];
            var order' := if name in options then order else order + [name];
            && Listed(options', order') && Distinct(order')
            && (forall other :: other in options' ==> other in order')
            && Total(Tally(options', order')) == Total(Tally(options, order)) + 1
  {
    if name in options {
      TotalAfterAppend(options, order, name, voter);
    } else {
      assert Voters(options, name) + [voter] == [voter];
      TotalAfterNewOption(options, order, name, voter);
      var order' := order + [name];
      forall i, j | 0 <= i < j < |order'| ensures order'[i] != order'[j] {
        if j == |order| {
          assert order[i] in options;
        }
      }
    }
  }

  /** An accepted vote from an address that has not voted keeps every
      option's voter count equal to the number of addresses recorded for it. */
  lemma CountsAfterAccept(options: map<string, seq<string>>, votesByAddress: map<string, string>,
                          ip: string, name: string, voter: string)
    requires forall a :: a in votesByAddress ==> votesByAddress[a] in options
    requires forall other :: other in options ==> |options[other]| == |AddressesFor(votesByAddress, other)|
    requires ip !in votesByAddress
    ensures var options' := options[name := Voters(options, name) + [voter]];
            var votes' := votesByAddress[ip := name];
            && (forall a :: a in votes' ==> votes'[a] in options')
            && (forall other :: other in options' ==> |options'[other]| == |AddressesFor(votes', other)|)
  {
    var options' := options[name := Voters(options, name) + [voter]];
    var votes' := votesByAddress[ip := name];
    if name !in options {
      assert AddressesFor(votesByAddress, name) == {};
    }
    forall other | other in options'
      ensures |options'[other]| == |AddressesFor(votes', other)|
    {
      AddressesAfterVote(votesByAddress, ip, name, other);
    }
  }

  /** An accepted vote from an address that has not voted, whether for a new
      option or for an existing or implicitly added one, keeps the poll
      consistent and raises the displayed total by exactly one. */
  lemma AcceptKeepsConsistent(options: map<string, seq<string>>, order: seq<string>,
                              votesByAddress: map<string, string>, ip: string, name: string, voter: string)
    requires Consistent(options, order, votesByAddress)
    requires ip !in votesByAddress
    ensures var options' := options[name := Voters(options, name) + [voter]];
            var order' := if name in options then order else order + [name];
            && Consistent(options', order', votesByAddress[ip := name])
            && Total(Tally(options', order')) == Total(Tally(options, order)) + 1
  {
    OrderAfterAccept(options, order, name, voter);
    CountsAfterAccept(options, votesByAddress, ip, name, voter);
    assert |votesByAddress[ip := name]| == |votesByAddress| + 1;
  }

  /** The poll as loaded by one request: the options with their voters, the
      order in which the options were added, and the addresses that voted. */
  class Ballot {
    var options: map<string, seq<string>>
    var order: seq<string>
    var votesByAddress: map<string, string>

    ghost predicate Valid()
      reads this
    {
      Consistent(options, order, votesByAddress)
    }

    /** The poll used when no saved poll exists. */
    constructor ()
      ensures options == DefaultOptions && order == DefaultOrder && votesByAddress == map[]
      ensures Valid()
    {
      options := DefaultOptions;
      order := DefaultOrder;
      votesByAddress := map[];
      DefaultIsConsistent();
    }

    /** One vote request from `ip` by `voter`, choosing the listed option
        `choice` or proposing `newChoice`. */
    method Vote(blocked: set<string>, ip: string, voter: string,
                choice: Field<string>, newChoice: Field<string>) returns (outcome: Outcome)
      modifies this
      ensures Blocked(blocked, ip) ==>
        outcome == Forbidden && unchanged(this)
      ensures !Blocked(blocked, ip) && ip in old(votesByAddress) ==>
        outcome == AlreadyVoted && unchanged(this)
      ensures !Blocked(blocked, ip) && ip !in old(votesByAddress) && Given(newChoice)
              && newChoice.value in old(options) ==>
        outcome == OptionExists && unchanged(this)
      ensures !Blocked(blocked, ip) && ip !in old(votesByAddress) && Given(newChoice)
              && newChoice.value !in old(options) ==>
        && outcome == OptionCreated(newChoice.value)
        && options == old(options)[newChoice.value := [voter]]
        && order == old(order) + [newChoice.value]
        && votesByAddress == old(votesByAddress)[ip := newChoice.value]
      ensures !Blocked(blocked, ip) && ip !in old(votesByAddress) && !Given(newChoice) && Given(choice) ==>
        && outcome == VoteRecorded(choice.value)
        && options == old(options)[choice.value := Voters(old(options), choice.value) + [voter]]
        && order == (if choice.value in old(options) then old(order) else old(order) + [choice.value])
        && votesByAddress == old(votesByAddress)[ip := choice.value]
      ensures !Blocked(blocked, ip) && ip !in old(votesByAddress) && !Given(newChoice) && !Given(choice) ==>
        outcome == NothingChosen && unchanged(this)
      ensures old(Valid()) ==> Valid()
      ensures outcome.Accepted() ==> |votesByAddress| == old(|votesByAddress|) + 1
      ensures old(Valid()) && outcome.Accepted() ==>
        Total(Tally(options, order)) == old(Total(Tally(options, order))) + 1
    {
      if Blocked(blocked, ip) {
        return Forbidden;
      }
      if ip in votesByAddress {
        return AlreadyVoted;
      }
      ghost var wasValid := Valid();
      var name: string;
      if Given(newChoice) {
        name := newChoice.value;
        if name in options {
          return OptionExists;
        }
        assert Voters(options, name) + [voter] == [voter];
        outcome := OptionCreated(name);
      } else if Given(choice) {
        name := choice.value;
        outcome := VoteRecorded(name);
      } else {
        return NothingChosen;
      }
      if wasValid {
        AcceptKeepsConsistent(options, order, votesByAddress, ip, name, voter);
      }
      if name !in options {
        order := order + [name];
      }
      options := options[name := Voters(options, name) + [voter]];
      votesByAddress := votesByAddress[ip := name];
    }

    /** The results list, one line per option in the order they were added. */
    method Results() returns (rows: seq<Row>)
      requires Listed(options, order)
      ensures rows == Tally(options, order)
    {
      rows := [];
      var i := 0;
      while i < |order|
        invariant 0 <= i <= |order|
        invariant |rows| == i
        invariant forall j :: 0 <= j < i ==> rows[j] == Row(order[j], |options[order[j]]|)
      {
        rows := rows + [Row(order[i], |options[order[i]]|)];
        i := i + 1;
      }
    }
  }

  /** Option names are matched exactly: "animes" becomes a new option beside
      "Animes", listed last, and its voter's address cannot vote again. */
  method NewOptionScenario()
  {
    var ballot := new Ballot();
    assert "animes"[0] != "Animes"[0] && "animes"[0] != "Deuses Gregos"[0];
    var outcome := ballot.Vote({}, "10.0.0.1", "Ana", Missing, Sent("animes"));
    assert outcome == OptionCreated("animes");
    assert ballot.order[2] == "animes";
    outcome := ballot.Vote({}, "10.0.0.1", "Ana", Sent("Animes"), Missing);
    assert outcome == AlreadyVoted;
  }

  /** A taken name is refused as a new option; an empty new option leaves the
      listed choice in force. */
  method ExistingOptionScenario()
  {
    var ballot := new Ballot();
    var outcome := ballot.Vote({}, "10.0.0.2", "Bia", Sent("Deuses Gregos"), Sent("Animes"));
    assert outcome == OptionExists;
    outcome := ballot.Vote({}, "10.0.0.2", "Bia", Sent("Animes"), Sent(""));
    assert outcome == VoteRecorded("Animes");
    assert ballot.options["Animes"] == ["Bia"];
  }

  /** A blocked address is refused, and a request without any option records
      nothing. */
  method RefusedScenario()
  {
    var ballot := new Ballot();
    var outcome := ballot.Vote({"10.0.0.3"}, "10.0.0.3", "Caio", Sent("Animes"), Missing);
    assert outcome == Forbidden;
    outcome := ballot.Vote({}, "10.0.0.3", "Caio", Missing, Sent(""));
    assert outcome == NothingChosen && "10.0.0.3" !in ballot.votesByAddress;
  }
}
