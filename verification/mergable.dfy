/** The `!mergable <repository>` command of the git_stats plugin, as pinned
    down by `test_pr_list` in tests/git_stats_test.py: which pull/merge
    requests of a known repository are ready to merge, and the reply. */
module Mergable {
  import Seqs

  datatype MergeRequestState = Open | Closed | Merged

  /** A snapshot of one pull/merge request. */
  datatype MergeRequest = MergeRequest(
    state: MergeRequestState,
    labels: seq<string>,
    baseSha: string,
    url: string)

  /** A known repository: its merge requests in the order the hosting API
      lists them, and the head commit of a fresh clone of it. */
  datatype Repository = Repository(mergeRequests: seq<MergeRequest>, headSha: string)

  const ApprovedLabel: string := "process/approved"
  const NoRepositoryReply: string := "Repository doesn't exist."
  const NoneReadyReply: string := "No merge-ready PRs!"
  const ReadyHeader: string := "PRs ready to be merged:\n "

  /** A request is ready when it is open, approved, and based on the current
      head of the repository (it needs no rebase). */
  predicate IsReady(mr: MergeRequest, headSha: string) {
    mr.state == Open && ApprovedLabel in mr.labels && mr.baseSha == headSha
  }

  /** The ready requests, in listing order. */
  function ReadyRequests(mrs: seq<MergeRequest>, headSha: string): (ready: seq<MergeRequest>)
    ensures |ready| <= |mrs|
    ensures forall k :: 0 <= k < |ready| ==> IsReady(ready[k], headSha)
  {
    if |mrs| == 0 then []
    else (if IsReady(mrs[0], headSha) then [mrs[0]] else []) + ReadyRequests(mrs[1..], headSha)
  }

  /** A request is selected exactly when it is listed and ready. */
  lemma {:induction false} ReadyRequestsMembership(mrs: seq<MergeRequest>, headSha: string, mr: MergeRequest)
    ensures mr in ReadyRequests(mrs, headSha) <==> mr in mrs && IsReady(mr, headSha)
  {
    if |mrs| > 0 {
      ReadyRequestsMembership(mrs[1..], headSha, mr);
      assert mrs == [mrs[0]] + mrs[1..];
    }
  }

  /** Ready requests keep their listing order: selection distributes over
      concatenation. */
  lemma {:induction false} ReadyRequestsAppend(a: seq<MergeRequest>, b: seq<MergeRequest>, headSha: string)
    ensures ReadyRequests(a + b, headSha) == ReadyRequests(a, headSha) + ReadyRequests(b, headSha)
  {
    if |a| == 0 {
      assert a + b == b;
    } else {
      var head := if IsReady(a[0], headSha) then [a[0]] else [];
      assert (a + b)[0] == a[0];
      assert (a + b)[1..] == a[1..] + b;
      ReadyRequestsAppend(a[1..], b, headSha);
      calc {
        ReadyRequests(a + b, headSha);
        head + ReadyRequests(a[1..] + b, headSha);
        head + (ReadyRequests(a[1..], headSha) + ReadyRequests(b, headSha));
        (head + ReadyRequests(a[1..], headSha)) + ReadyRequests(b, headSha);
      }
    }
  }

  /** Nothing is selected exactly when no listed request is ready. */
  lemma NoneSelectedIffNoneReady(mrs: seq<MergeRequest>, headSha: string)
    ensures ReadyRequests(mrs, headSha) == [] <==> forall i :: 0 <= i < |mrs| ==> !IsReady(mrs[i], headSha)
  {
    if exists i :: 0 <= i < |mrs| && IsReady(mrs[i], headSha) {
      var i :| 0 <= i < |mrs| && IsReady(mrs[i], headSha);
      ReadyRequestsMembership(mrs, headSha, mrs[i]);
    }
  }

  /** The URLs of the given requests. */
  function Urls(mrs: seq<MergeRequest>): (urls: seq<string>)
    ensures |urls| == |mrs|
    ensures forall k :: 0 <= k < |mrs| ==> urls[k] == mrs[k].url
  {
    seq(|mrs|, k requires 0 <= k < |mrs| => mrs[k].url)
  }

  /** The reply to `!mergable name`: the fixed message for an unknown
      repository; otherwise the ready requests' URLs under a header, or the
      fixed message when there are none. */
  function MergableReply(registry: map<string, Repository>, name: string): (reply: string)
    ensures name !in registry <==> reply == NoRepositoryReply
    ensures name in registry ==>
      var repo := registry[name];
      && (reply == NoneReadyReply
          <==> forall i :: 0 <= i < |repo.mergeRequests| ==> !IsReady(repo.mergeRequests[i], repo.headSha))
      && (ReadyRequests(repo.mergeRequests, repo.headSha) != [] ==>
          reply == ReadyHeader + Seqs.Join(Urls(ReadyRequests(repo.mergeRequests, repo.headSha)), "\n "))
  {
    if name !in registry then NoRepositoryReply
    else
      var repo := registry[name];
      var ready := ReadyRequests(repo.mergeRequests, repo.headSha);
      NoneSelectedIffNoneReady(repo.mergeRequests, repo.headSha);
      var urls := Urls(ready);
      if ready == [] then NoneReadyReply
      else
        var reply := ReadyHeader + Seqs.Join(urls, "\n ");
        assert reply[0] == 'P';
        reply
  }

  /** With a single listed request, the reply is its URL under the header
      when it is ready and the fixed message otherwise. */
  lemma SingleRequestReply(name: string, mr: MergeRequest, headSha: string)
    ensures MergableReply(map[name := Repository([mr], headSha)], name)
      == if IsReady(mr, headSha) then ReadyHeader + mr.url else NoneReadyReply
  {
    assert ReadyRequests([mr], headSha) == (if IsReady(mr, headSha) then [mr] else []);
  }

  /** Readiness looks only at whether the approval label is present: other
      labels, such as `difficulty/newcomer`, neither help nor block. */
  lemma OnlyApprovalLabelMatters(mr: MergeRequest, labels: seq<string>, headSha: string)
    requires (ApprovedLabel in labels) == (ApprovedLabel in mr.labels)
    ensures IsReady(mr.(labels := labels), headSha) == IsReady(mr, headSha)
  {
  }

  /** The request of `test_pr_list` in its approved form. */
  function ApprovedRequest(): MergeRequest {
    MergeRequest(Open, ["process/approved", "difficulty/newcomer"], "1", "http://www.example.com/")
  }

  /** `test_pr_list`: a repository name that is not registered. */
  lemma UnknownRepositoryScenario()
    ensures MergableReply(map["test" := Repository([ApprovedRequest()], "1")], "b") == "Repository doesn't exist."
  {
  }

  /** `test_pr_list`: open, approved and based on the clone's head commit. */
  lemma ReadyScenario()
    ensures MergableReply(map["test" := Repository([ApprovedRequest()], "1")], "test")
      == ReadyHeader + "http://www.example.com/"
  {
    SingleRequestReply("test", ApprovedRequest(), "1");
    assert ApprovedRequest().labels[0] == ApprovedLabel;
  }

  /** `test_pr_list`: labelled work-in-progress instead of approved. */
  lemma WrongLabelsScenario()
    ensures MergableReply(
      map["test" := Repository([ApprovedRequest().(labels := ["process/wip", "difficulty/newcomer"])], "1")], "test")
      == "No merge-ready PRs!"
  {
    SingleRequestReply("test", ApprovedRequest().(labels := ["process/wip", "difficulty/newcomer"]), "1");
  }

  /** `test_pr_list`: the clone's head moved on to commit `2`. */
  lemma NeedsRebaseScenario()
    ensures MergableReply(map["test" := Repository([ApprovedRequest()], "2")], "test") == "No merge-ready PRs!"
  {
    SingleRequestReply("test", ApprovedRequest(), "2");
  }

  /** `test_pr_list`: the request is already closed. */
  lemma ClosedScenario()
    ensures MergableReply(map["test" := Repository([ApprovedRequest().(state := Closed)], "1")], "test")
      == "No merge-ready PRs!"
  {
    SingleRequestReply("test", ApprovedRequest().(state := Closed), "1");
  }
}
