/** Which DNS entries the reconciler rewrites: every entry of type `A` of
    every listed domain whose name is the configured one, in listing order. */
module Selection {
  import opened Wire

  /** IDs of the address records among `entries`, in order. */
  function EntryTargets(entries: seq<Entry>): seq<string>
  {
    if entries == [] then []
    else
      var last := entries[|entries| - 1];
      EntryTargets(entries[..|entries| - 1]) + (if last.recordType == AddressRecord then [last.id] else [])
  }

  /** What one listed domain contributes: its address records when its name is
      `name`, nothing otherwise. */
  function DomainTargets(d: Domain, name: string): seq<string>
  {
    if d.domainName == name then EntryTargets(d.entries) else []
  }

  /** IDs of the entries to update, domain by domain and entry by entry; a
      domain listed twice contributes twice. */
  function Targets(domains: seq<Domain>, name: string): seq<string>
  {
    if domains == [] then []
    else Targets(domains[..|domains| - 1], name) + DomainTargets(domains[|domains| - 1], name)
  }

  lemma {:induction false} EntryTargetsAppend(a: seq<Entry>, b: seq<Entry>)
    ensures EntryTargets(a + b) == EntryTargets(a) + EntryTargets(b)
  {
    if b != [] {
      var n := |b| - 1;
      assert (a + b)[..|a + b| - 1] == a + b[..n];
      EntryTargetsAppend(a, b[..n]);
    } else {
      assert a + b == a;
    }
  }

  /** Selection distributes over a split of the listing: the matching domains
      are all visited, not only the first one. */
  lemma {:induction false} TargetsAppend(a: seq<Domain>, b: seq<Domain>, name: string)
    ensures Targets(a + b, name) == Targets(a, name) + Targets(b, name)
  {
    if b != [] {
      var n := |b| - 1;
      assert (a + b)[..|a + b| - 1] == a + b[..n];
      TargetsAppend(a, b[..n], name);
    } else {
      assert a + b == a;
    }
  }

  /** Some entry of type `A` with ID `id` sits in a listed domain named `name`. */
  ghost predicate ListsAddressRecord(domains: seq<Domain>, name: string, id: string)
  {
    exists i, j :: 0 <= i < |domains| && 0 <= j < |domains[i].entries| &&
      domains[i].domainName == name &&
      domains[i].entries[j].recordType == AddressRecord && domains[i].entries[j].id == id
  }

  /** An ID is selected exactly when some entry of type `A` with that ID sits
      in some listed domain named `name`. */
  lemma {:induction false} TargetsMembers(domains: seq<Domain>, name: string, id: string)
    ensures id in Targets(domains, name) <==> ListsAddressRecord(domains, name, id)
  {
    if domains != [] {
      var n := |domains| - 1;
      var front, d := domains[..n], domains[n];
      TargetsMembers(front, name, id);
      EntryTargetsMembers(d.entries, id);
      assert Targets(domains, name) == Targets(front, name) + DomainTargets(d, name);
      if id in Targets(domains, name) {
        if id in Targets(front, name) {
          var i, j :| 0 <= i < |front| && 0 <= j < |front[i].entries| &&
            front[i].domainName == name &&
            front[i].entries[j].recordType == AddressRecord && front[i].entries[j].id == id;
          assert domains[i] == front[i];
        } else {
          var j :| 0 <= j < |d.entries| && d.entries[j].recordType == AddressRecord && d.entries[j].id == id;
          assert domains[n].entries[j] == d.entries[j];
        }
      }
      if ListsAddressRecord(domains, name, id) {
        var i, j :| 0 <= i < |domains| && 0 <= j < |domains[i].entries| &&
          domains[i].domainName == name &&
          domains[i].entries[j].recordType == AddressRecord && domains[i].entries[j].id == id;
        if i < n {
          assert front[i] == domains[i];
          assert ListsAddressRecord(front, name, id);
        } else {
          assert id in DomainTargets(d, name);
        }
      }
    }
  }

  lemma {:induction false} EntryTargetsMembers(entries: seq<Entry>, id: string)
    ensures id in EntryTargets(entries) <==>
      exists j :: 0 <= j < |entries| && entries[j].recordType == AddressRecord && entries[j].id == id
  {
    if entries != [] {
      var n := |entries| - 1;
      var front := entries[..n];
      EntryTargetsMembers(front, id);
      if exists j :: 0 <= j < |front| && front[j].recordType == AddressRecord && front[j].id == id {
        var j :| 0 <= j < |front| && front[j].recordType == AddressRecord && front[j].id == id;
        assert entries[j] == front[j];
      }
      if exists j :: 0 <= j < |entries| && entries[j].recordType == AddressRecord && entries[j].id == id {
        var j :| 0 <= j < |entries| && entries[j].recordType == AddressRecord && entries[j].id == id;
        if j < n {
          assert front[j] == entries[j];
        }
      }
    }
  }

  /** One domain's entries, each paired with the domain's name. */
  function Pairs(d: Domain): (pairs: seq<(string, Entry)>)
  {
    seq(|d.entries|, j requires 0 <= j < |d.entries| => (d.domainName, d.entries[j]))
  }

  /** The listing flattened into (domain name, entry) pairs, in the order the
      nested walk meets them. */
  function Flatten(domains: seq<Domain>): seq<(string, Entry)>
  {
    if domains == [] then [] else Pairs(domains[0]) + Flatten(domains[1..])
  }

  /** IDs of the pairs that name `name` and hold an address record, in order. */
  function Selected(pairs: seq<(string, Entry)>, name: string): seq<string>
  {
    if pairs == [] then []
    else
      (if pairs[0].0 == name && pairs[0].1.recordType == AddressRecord then [pairs[0].1.id] else []) +
      Selected(pairs[1..], name)
  }

  lemma {:induction false} SelectedAppend(a: seq<(string, Entry)>, b: seq<(string, Entry)>, name: string)
    ensures Selected(a + b, name) == Selected(a, name) + Selected(b, name)
  {
    if a != [] {
      assert (a + b)[1..] == a[1..] + b;
      SelectedAppend(a[1..], b, name);
    } else {
      assert a + b == b;
    }
  }

  /** Selecting from one domain's pairs is what that domain contributes. */
  lemma {:induction false} SelectedPairs(d: Domain, name: string)
    ensures Selected(Pairs(d), name) == DomainTargets(d, name)
    decreases |d.entries|
  {
    if d.entries != [] {
      var n := |d.entries| - 1;
      var shorter := Domain(d.domainName, d.id, d.entries[..n]);
      var last := (d.domainName, d.entries[n]);
      SelectedPairs(shorter, name);
      assert Pairs(d) == Pairs(shorter) + [last];
      SelectedAppend(Pairs(shorter), [last], name);
      assert Selected([last], name) == (if last.0 == name && last.1.recordType == AddressRecord then [last.1.id] else []);
    }
  }

  /** Reference definition: the nested walk with its two filters selects the
      same IDs, in the same order, as filtering the flattened listing. */
  lemma {:induction false} TargetsIsFilteredFlattening(domains: seq<Domain>, name: string)
    ensures Targets(domains, name) == Selected(Flatten(domains), name)
  {
    if domains != [] {
      var d := domains[0];
      TargetsIsFilteredFlattening(domains[1..], name);
      SelectedAppend(Pairs(d), Flatten(domains[1..]), name);
      SelectedPairs(d, name);
      assert domains == [d] + domains[1..];
      TargetsAppend([d], domains[1..], name);
      assert [d][..0] == [];
      assert Targets([d], name) == DomainTargets(d, name);
    }
  }

  /** The IDs selected before entry `j` of the matching domain `i`, followed
      by entries up to `j`, come first in the full selection. */
  lemma {:induction false} SelectedSoFarIsPrefix(domains: seq<Domain>, name: string, i: nat, j: nat)
    requires i < |domains| && domains[i].domainName == name && j <= |domains[i].entries|
    ensures Targets(domains[..i], name) + EntryTargets(domains[i].entries[..j]) <= Targets(domains, name)
  {
    var d, es := domains[i], domains[i].entries;
    var before, after := domains[..i], domains[i + 1..];
    assert Targets(domains, name) == Targets(before, name) + (EntryTargets(es) + Targets(after, name)) by {
      assert domains == before + ([d] + after);
      TargetsAppend(before, [d] + after, name);
      TargetsAppend([d], after, name);
      assert [d][..0] == [];
      assert Targets([d], name) == EntryTargets(es);
    }
    assert EntryTargets(es) == EntryTargets(es[..j]) + EntryTargets(es[j..]) by {
      assert es == es[..j] + es[j..];
      EntryTargetsAppend(es[..j], es[j..]);
    }
  }

  /** One more entry extends the selection by that entry when it is an
      address record, and leaves it as it is otherwise. */
  lemma EntryTargetsStep(entries: seq<Entry>, j: nat)
    requires j < |entries|
    ensures EntryTargets(entries[..j + 1]) ==
      EntryTargets(entries[..j]) + (if entries[j].recordType == AddressRecord then [entries[j].id] else [])
  {
    assert entries[..j + 1][..j] == entries[..j];
  }

  /** One more listed domain extends the selection by what it contributes. */
  lemma TargetsStep(domains: seq<Domain>, name: string, i: nat)
    requires i < |domains|
    ensures Targets(domains[..i + 1], name) == Targets(domains[..i], name) + DomainTargets(domains[i], name)
  {
    assert domains[..i + 1][..i] == domains[..i];
  }
}
