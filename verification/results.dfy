/** The results list of the voting page: one line per option, in the order the
    options were added, showing how many voters the option's list holds. */
module Results {

  /** One line of the results list: an option and its number of votes. */
  datatype Row = Row(option: string, votes: nat)

  /** Every name listed in `order` is an option. */
  predicate Listed(options: map<string, seq<string>>, order: seq<string>)
  {
    forall i :: 0 <= i < |order| ==> order[i] in options
  }

  /** No option name is listed twice. */
  predicate Distinct(order: seq<string>)
  {
    forall i, j :: 0 <= i < j < |order| ==> order[i] != order[j]
  }

  /** The results list for the options named by `order`, in that order. */
  function Tally(options: map<string, seq<string>>, order: seq<string>): (rows: seq<Row>)
    requires Listed(options, order)
    ensures |rows| == |order|
    ensures forall i :: 0 <= i < |order| ==> rows[i] == Row(order[i], |options[order[i]]|)
  {
    if order == [] then []
    else [Row(order[0], |options[order[0]]|)] + Tally(options, order[1..])
  }

  /** The sum of the votes shown in a results list. */
  function Total(rows: seq<Row>): (n: nat)
  {
    if rows == [] then 0 else rows[0].votes + Total(rows[1..])
  }

  lemma {:induction false} TotalAppend(rows: seq<Row>, r: Row)
    ensures Total(rows + [r]) == Total(rows) + r.votes
  {
    if rows == [] {
      assert [r][1..] == [];
    } else {
      assert (rows + [r])[1..] == rows[1..] + [r];
      TotalAppend(rows[1..], r);
    }
  }

  /** Adding an option that was not there, with a single voter, as the last
      option, adds a last line showing one vote and raises the total by one. */
  lemma TotalAfterNewOption(options: map<string, seq<string>>, order: seq<string>, name: string, voter: string)
    requires Listed(options, order)
    requires name !in options
    ensures Listed(options[name := [voter]], order + [name])
    ensures Tally(options[name := [voter]], order + [name]) == Tally(options, order) + [Row(name, 1)]
    ensures Total(Tally(options[name := [voter]], order + [name])) == Total(Tally(options, order)) + 1
  {
    var options' := options[name := [voter]];
    var before := Tally(options, order);
    var after := Tally(options', order + [name]);
    assert after == before + [Row(name, 1)] by {
      forall i | 0 <= i < |order|
        ensures after[i] == before[i]
      {
        assert order[i] in options;
      }
    }
    TotalAppend(before, Row(name, 1));
  }

  /** Appending one voter to an option that is listed exactly once raises the
      total by one. */
  lemma {:induction false} TotalAfterAppend(options: map<string, seq<string>>, order: seq<string>, name: string, voter: string)
    requires Listed(options, order) && Distinct(order)
    requires name in order
    ensures Listed(options[name := options[name] + [voter]], order)
    ensures Total(Tally(options[name := options[name] + [voter]], order)) == Total(Tally(options, order)) + 1
  {
    var options' := options[name := options[name] + [voter]];
    assert Listed(options', order);
    var rest := order[1..];
    assert Listed(options, rest);
    if order[0] == name {
      assert name !in rest by {
        forall j | 0 <= j < |rest| ensures rest[j] != name {
          assert rest[j] == order[j + 1];
        }
      }
      assert Tally(options', rest) == Tally(options, rest) by {
        forall j | 0 <= j < |rest| ensures Tally(options', rest)[j] == Tally(options, rest)[j] {
          assert rest[j] != name;
        }
      }
    } else {
      assert name in rest by {
        var k :| 0 <= k < |order| && order[k] == name;
        assert rest[k - 1] == name;
      }
      assert Distinct(rest);
      TotalAfterAppend(options, rest, name, voter);
    }
  }
}
