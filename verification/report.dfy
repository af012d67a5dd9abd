/** The `crosslink` command of plugins/crosslink.py: the identities among the
    resolution result, each followed by its fragments (verified accounts
    first), rendered one per line. */
module Report {
  import opened Wrappers
  import opened Services
  import opened Resolved
  import Seqs

  /** The identities among the resolution result, in result order. */
  function Identities(results: seq<ResolvedItem>): (ids: seq<Identity>)
    ensures |ids| <= |results|
    ensures forall k :: 0 <= k < |ids| ==> IdentityItem(ids[k]) in results
  {
    if |results| == 0 then []
    else
      (if results[0].IdentityItem? then [results[0].identity] else []) + Identities(results[1..])
  }

  /** Identities keep their relative order: collecting them distributes over
      concatenation of results. */
  lemma {:induction false} IdentitiesAppend(a: seq<ResolvedItem>, b: seq<ResolvedItem>)
    ensures Identities(a + b) == Identities(a) + Identities(b)
  {
    if |a| == 0 {
      assert a + b == b;
    } else {
      assert (a + b)[0] == a[0];
      assert (a + b)[1..] == a[1..] + b;
      IdentitiesAppend(a[1..], b);
    }
  }

  /** There are no identities exactly when no result item is one. */
  lemma {:induction false} NoIdentitiesIffNoIdentityItem(results: seq<ResolvedItem>)
    ensures Identities(results) == [] <==> forall i :: 0 <= i < |results| ==> !results[i].IdentityItem?
  {
    if |results| > 0 {
      NoIdentitiesIffNoIdentityItem(results[1..]);
      assert forall i :: 1 <= i < |results| ==> results[i] == results[1..][i - 1];
    }
  }

  /** The fragments that are verified accounts (`verified`) or that are not
      (`!verified`), in their original order. */
  function OfKind(fragments: seq<Fragment>, verified: bool): (kept: seq<Fragment>)
    ensures |kept| <= |fragments|
    ensures forall k :: 0 <= k < |kept| ==> kept[k].VerifiedAccount? == verified
  {
    if |fragments| == 0 then []
    else
      var n := |fragments| - 1;
      OfKind(fragments[..n], verified)
        + (if fragments[n].VerifiedAccount? == verified then [fragments[n]] else [])
  }

  lemma OfKindSnoc(prefix: seq<Fragment>, f: Fragment, verified: bool)
    ensures OfKind(prefix + [f], verified)
      == OfKind(prefix, verified) + (if f.VerifiedAccount? == verified then [f] else [])
  {
    assert (prefix + [f])[..|prefix|] == prefix;
  }

  /** Selecting one kind distributes over concatenation. */
  lemma {:induction false} OfKindAppend(a: seq<Fragment>, b: seq<Fragment>, verified: bool)
    ensures OfKind(a + b, verified) == OfKind(a, verified) + OfKind(b, verified)
  {
    if |b| == 0 {
      assert a + b == a;
    } else {
      var n := |b| - 1;
      var last := if b[n].VerifiedAccount? == verified then [b[n]] else [];
      assert a + b == (a + b[..n]) + [b[n]];
      assert b == b[..n] + [b[n]];
      OfKindAppend(a, b[..n], verified);
      OfKindSnoc(a + b[..n], b[n], verified);
      OfKindSnoc(b[..n], b[n], verified);
      calc {
        OfKind(a + b, verified);
        OfKind(a + b[..n], verified) + last;
        (OfKind(a, verified) + OfKind(b[..n], verified)) + last;
        OfKind(a, verified) + (OfKind(b[..n], verified) + last);
      }
    }
  }

  /** Selecting the kind every fragment has keeps them all. */
  lemma {:induction false} OfKindKeepsAll(fragments: seq<Fragment>, verified: bool)
    requires forall k :: 0 <= k < |fragments| ==> fragments[k].VerifiedAccount? == verified
    ensures OfKind(fragments, verified) == fragments
  {
    if |fragments| > 0 {
      OfKindKeepsAll(fragments[..|fragments| - 1], verified);
    }
  }

  /** Selecting a kind no fragment has keeps none. */
  lemma {:induction false} OfKindDropsAll(fragments: seq<Fragment>, verified: bool)
    requires forall k :: 0 <= k < |fragments| ==> fragments[k].VerifiedAccount? != verified
    ensures OfKind(fragments, verified) == []
  {
    if |fragments| > 0 {
      OfKindDropsAll(fragments[..|fragments| - 1], verified);
    }
  }

  /** The two kinds together are exactly the fragments. */
  lemma {:induction false} OfKindPartition(fragments: seq<Fragment>)
    ensures multiset(OfKind(fragments, true)) + multiset(OfKind(fragments, false)) == multiset(fragments)
  {
    if |fragments| > 0 {
      var n := |fragments| - 1;
      OfKindPartition(fragments[..n]);
      assert fragments == fragments[..n] + [fragments[n]];
    }
  }

  /** The arrangement loop: each verified account is inserted at the front,
      every other fragment appended at the back. */
  function Arrange(fragments: seq<Fragment>): (arranged: seq<Fragment>)
    ensures |arranged| == |fragments|
  {
    if |fragments| == 0 then []
    else
      var n := |fragments| - 1;
      var before := Arrange(fragments[..n]);
      var f := fragments[n];
      if f.VerifiedAccount? then [f] + before else before + [f]
  }

  /** One more step of the arrangement loop. */
  lemma ArrangeSnoc(prefix: seq<Fragment>, f: Fragment)
    ensures Arrange(prefix + [f]) == if f.VerifiedAccount? then [f] + Arrange(prefix) else Arrange(prefix) + [f]
  {
    assert (prefix + [f])[..|prefix|] == prefix;
  }

  /** The arrangement as the verified accounts reversed, then the rest. */
  predicate ArrangedSplit(fragments: seq<Fragment>) {
    Arrange(fragments) == Seqs.Reverse(OfKind(fragments, true)) + OfKind(fragments, false)
  }

  /** The inductive step for a verified account, which goes to the front. */
  lemma ArrangedSplitVerifiedStep(prefix: seq<Fragment>, f: Fragment)
    requires f.VerifiedAccount?
    requires ArrangedSplit(prefix)
    ensures ArrangedSplit(prefix + [f])
  {
    var verified := OfKind(prefix, true);
    var rest := OfKind(prefix, false);
    ArrangeSnoc(prefix, f);
    OfKindSnoc(prefix, f, true);
    OfKindSnoc(prefix, f, false);
    Seqs.ReverseSnoc(verified, f);
    Seqs.AppendAssoc([f], Seqs.Reverse(verified), rest);
  }

  /** The inductive step for any other fragment, which goes to the back. */
  lemma ArrangedSplitUnverifiedStep(prefix: seq<Fragment>, f: Fragment)
    requires !f.VerifiedAccount?
    requires ArrangedSplit(prefix)
    ensures ArrangedSplit(prefix + [f])
  {
    var verified := OfKind(prefix, true);
    var rest := OfKind(prefix, false);
    ArrangeSnoc(prefix, f);
    OfKindSnoc(prefix, f, true);
    OfKindSnoc(prefix, f, false);
    assert OfKind(prefix + [f], true) == verified + [] == verified;
    Seqs.AppendAssoc(Seqs.Reverse(verified), rest, [f]);
  }

  /** The arrangement is the verified accounts in reverse order followed by
      the other fragments in their original order. */
  lemma {:induction false} ArrangeIsReversedVerifiedThenRest(fragments: seq<Fragment>)
    ensures ArrangedSplit(fragments)
  {
    if |fragments| > 0 {
      var n := |fragments| - 1;
      var prefix := fragments[..n];
      var f := fragments[n];
      ArrangeIsReversedVerifiedThenRest(prefix);
      if f.VerifiedAccount? {
        ArrangedSplitVerifiedStep(prefix, f);
      } else {
        ArrangedSplitUnverifiedStep(prefix, f);
      }
      assert prefix + [f] == fragments;
    }
  }

  /** Every verified account precedes every other fragment. */
  lemma ArrangeVerifiedFirst(fragments: seq<Fragment>)
    ensures var arranged := Arrange(fragments);
      forall i, j :: 0 <= i < j < |arranged| && !arranged[i].VerifiedAccount? ==> !arranged[j].VerifiedAccount?
  {
    var verified := OfKind(fragments, true);
    var front := Seqs.Reverse(verified);
    ArrangeIsReversedVerifiedThenRest(fragments);
    Seqs.ReverseIndex(verified);
    assert forall i :: 0 <= i < |front| ==> front[i].VerifiedAccount?;
  }

  /** The verified accounts come out in reverse and the other fragments in
      their original order. */
  lemma ArrangeKeepsEachKindInOrder(fragments: seq<Fragment>)
    ensures OfKind(Arrange(fragments), true) == Seqs.Reverse(OfKind(fragments, true))
    ensures OfKind(Arrange(fragments), false) == OfKind(fragments, false)
  {
    var verified := OfKind(fragments, true);
    var front := Seqs.Reverse(verified);
    var rest := OfKind(fragments, false);
    ArrangeIsReversedVerifiedThenRest(fragments);
    Seqs.ReverseIndex(verified);
    assert forall i :: 0 <= i < |front| ==> front[i].VerifiedAccount?;
    OfKindAppend(front, rest, true);
    OfKindAppend(front, rest, false);
    OfKindKeepsAll(front, true);
    OfKindDropsAll(rest, true);
    OfKindKeepsAll(rest, false);
    OfKindDropsAll(front, false);
  }

  /** The arrangement only reorders the fragments. */
  lemma ArrangeIsPermutation(fragments: seq<Fragment>)
    ensures multiset(Arrange(fragments)) == multiset(fragments)
  {
    ArrangeIsReversedVerifiedThenRest(fragments);
    Seqs.ReverseMultiset(OfKind(fragments, true));
    OfKindPartition(fragments);
  }

  /** The line for one fragment of `identity`: a verified account is marked
      ` + ` and shows just the account when the identity's own service
      verified it; any other fragment is indented by three spaces. */
  function FragmentLine(identity: Identity, f: Fragment): (line: string)
    ensures |line| >= 3
    ensures f.VerifiedAccount? && f.verifier == identity.service ==> line == " + " + f.account
    ensures f.VerifiedAccount? && f.verifier != identity.service ==> line == " + " + f.text
    ensures f.PlainFragment? ==> line == "   " + f.text
  {
    match f
    case VerifiedAccount(verifier, account, text) =>
      if verifier != identity.service then " + " + text else " + " + account
    case PlainFragment(text) => "   " + text
  }

  /** The marker at the head of a fragment line tells which kind of fragment
      it came from. */
  lemma FragmentLineMarksVerified(identity: Identity, f: Fragment)
    ensures FragmentLine(identity, f)[..3] == " + " <==> f.VerifiedAccount?
    ensures FragmentLine(identity, f)[..3] == "   " <==> f.PlainFragment?
  {
  }

  /** The lines for one identity: its rendering, then one line per arranged
      fragment. */
  function IdentityLines(identity: Identity): (lines: seq<string>)
    ensures |lines| == 1 + |identity.fragments|
    ensures lines[0] == identity.text
  {
    var arranged := Arrange(identity.fragments);
    [identity.text] + seq(|arranged|, k requires 0 <= k < |arranged| => FragmentLine(identity, arranged[k]))
  }

  /** Line `1 + k` of an identity's block is the line for its `k`th arranged
      fragment, so the block lists the verified accounts first. */
  lemma IdentityLinesFollowArrangement(identity: Identity)
    ensures var lines := IdentityLines(identity);
      var arranged := Arrange(identity.fragments);
      && |arranged| + 1 == |lines|
      && forall k :: 0 <= k < |arranged| ==> lines[1 + k] == FragmentLine(identity, arranged[k])
  {
  }

  /** How many lines a sequence of identities takes: one per identity and
      one per fragment. */
  function LineCount(ids: seq<Identity>): nat {
    if |ids| == 0 then 0 else 1 + |ids[0].fragments| + LineCount(ids[1..])
  }

  /** The identity blocks one after the other. */
  function IdentityBlocks(ids: seq<Identity>): (lines: seq<string>)
    ensures |lines| == LineCount(ids)
    ensures |ids| > 0 ==> lines[0] == ids[0].text
    ensures |ids| == 1 ==> lines == IdentityLines(ids[0])
  {
    if |ids| == 0 then [] else IdentityLines(ids[0]) + IdentityBlocks(ids[1..])
  }

  /** Blocks keep the identities' order: the blocks of `a + b` are those of
      `a` followed by those of `b`. */
  lemma {:induction false} IdentityBlocksAppend(a: seq<Identity>, b: seq<Identity>)
    ensures IdentityBlocks(a + b) == IdentityBlocks(a) + IdentityBlocks(b)
  {
    if |a| == 0 {
      assert a + b == b;
    } else {
      assert (a + b)[0] == a[0];
      assert (a + b)[1..] == a[1..] + b;
      IdentityBlocksAppend(a[1..], b);
      Seqs.AppendAssoc(IdentityLines(a[0]), IdentityBlocks(a[1..]), IdentityBlocks(b));
    }
  }

  /** Whether a report line carries the verified-account marker. */
  predicate MarkedVerified(line: string) {
    |line| >= 3 && line[..3] == " + "
  }

  /** Within an identity's block, every ` + ` line comes before every line
      without the marker. */
  lemma MarkedLinesFirst(identity: Identity)
    ensures var lines := IdentityLines(identity);
      forall i, j :: 1 <= i < j < |lines| && !MarkedVerified(lines[i]) ==> !MarkedVerified(lines[j])
  {
    var lines := IdentityLines(identity);
    var arranged := Arrange(identity.fragments);
    IdentityLinesFollowArrangement(identity);
    ArrangeVerifiedFirst(identity.fragments);
    forall i, j | 1 <= i < j < |lines| && !MarkedVerified(lines[i])
      ensures !MarkedVerified(lines[j])
    {
      FragmentLineMarksVerified(identity, arranged[i - 1]);
      FragmentLineMarksVerified(identity, arranged[j - 1]);
    }
  }

  function Header(email: string): string {
    "Identities for `" + email + "`:"
  }

  function NotFound(email: string): string {
    "no identities found for `" + email + "`!"
  }

  /** The output lines for a non-empty sequence of identities. */
  function ReportLines(email: string, ids: seq<Identity>): (lines: seq<string>)
    ensures |lines| == 1 + LineCount(ids)
    ensures lines[0] == Header(email)
    ensures |ids| > 0 ==> lines[1] == ids[0].text
    ensures lines[1..] == IdentityBlocks(ids)
  {
    [Header(email)] + IdentityBlocks(ids)
  }

  /** `crosslink_cmd` for an address: the exception's `repr` when `Email`
      rejects it, the not-found message when the result holds no identity,
      and otherwise the report lines joined by newlines. */
  function Crosslink(email: string, parseError: Option<string>, results: seq<ResolvedItem>): (reply: string)
    ensures parseError.Some? ==> reply == "Exception " + parseError.value
    ensures parseError.None? ==>
      (reply == NotFound(email) <==> forall i :: 0 <= i < |results| ==> !results[i].IdentityItem?)
    ensures parseError.None? && Identities(results) != [] ==>
      reply == Seqs.Join(ReportLines(email, Identities(results)), "\n")
  {
    NoIdentitiesIffNoIdentityItem(results);
    match parseError
    case Some(repr) => "Exception " + repr
    case None =>
      var ids := Identities(results);
      if ids == [] then NotFound(email)
      else
        var lines := ReportLines(email, ids);
        var reply := Seqs.Join(lines, "\n");
        assert reply[0] == lines[0][0] == 'I';
        reply
  }

  /** Read back line by line, the reply is exactly the report lines, when
      neither the address nor any rendering contains a newline. */
  lemma CrosslinkLines(email: string, results: seq<ResolvedItem>)
    requires Identities(results) != []
    requires forall i :: 0 <= i < |ReportLines(email, Identities(results))| ==>
      '\n' !in ReportLines(email, Identities(results))[i]
    ensures Seqs.Split(Crosslink(email, None, results), '\n') == ReportLines(email, Identities(results))
  {
    Seqs.SplitJoin(ReportLines(email, Identities(results)), '\n');
  }
}
