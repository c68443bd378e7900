/** Progress posts of an upgrade: which ones are taken, and what a finished attempt can still
    become. */
module UpdateProgress {

  import opened Basics
  import opened Management
  import opened ManagementQueue
  import HelperBatch

  datatype Post = Post(component: Component, phase: Phase, target: string, message: string)

  /** The post belongs to the attempt on record; it may leave out the target. */
  predicate SameAttempt(previous: Option<Progress>, post: Post) {
    previous.Some? && previous.value.component == post.component &&
    (post.target == "" || previous.value.target == post.target)
  }

  /** A late post of an attempt that is over: it would reopen it, or turn its failure into success. */
  predicate TooLate(previous: Option<Progress>, post: Post) {
    SameAttempt(previous, post) && Terminal(previous.value.phase) &&
    (!Terminal(post.phase) || (previous.value.phase != Success && post.phase == Success))
  }

  /** A post is only ever too late for an attempt that is over; a post of a running attempt, or of
      another one, is taken. */
  lemma OnlyLatePostsAreDropped(previous: Option<Progress>, post: Post)
    ensures previous.None? || previous.value.phase !in {Success, Failed, RolledBack} ||
            previous.value.component != post.component ||
            (post.target != "" && post.target != previous.value.target) ==>
              !TooLate(previous, post)
    ensures previous.Some? && previous.value.component == post.component && previous.value.target == post.target ==>
              (TooLate(previous, post) <==>
                 (previous.value.phase == Success && post.phase !in {Success, Failed, RolledBack}) ||
                 (previous.value.phase in {Failed, RolledBack} && post.phase !in {Failed, RolledBack}))
  {
  }

  function Posted(previous: Option<Progress>, post: Post, now: int): Progress {
    var same := SameAttempt(previous, post);
    Progress(post.component, post.phase,
             if same && post.target == "" then previous.value.target else post.target, post.message,
             if same then previous.value.startedAt else now, now)
  }

  /** The progress on record after a post that is not lost. */
  function After(previous: Option<Progress>, post: Post, now: int): Option<Progress> {
    if TooLate(previous, post) then previous else Some(Posted(previous, post, now))
  }

  /** Takes a post.  Within five seconds of the last save nothing is written; if it is, and the
      write fails, the previous progress is put back. */
  method Record(s: HelperState, server: string, post: Post, now: int, throttled: bool, saveOk: bool) returns (ok: bool)
    modifies s`statuses
    ensures ok <==> throttled || saveOk || TooLate(StatusOf(old(s.statuses), server).update, post)
    ensures StatusOf(s.statuses, server).update ==
              if ok then After(StatusOf(old(s.statuses), server).update, post, now)
              else StatusOf(old(s.statuses), server).update
    ensures var previous := StatusOf(old(s.statuses), server).update;
            ok && (previous.None? || previous.value.phase !in {Success, Failed, RolledBack} ||
                   previous.value.component != post.component || post.target !in {"", previous.value.target}) ==>
              var update := StatusOf(s.statuses, server).update;
              update.Some? && update.value.component == post.component && update.value.phase == post.phase &&
              update.value.message == post.message && update.value.updatedAt == now &&
              (post.target != "" ==> update.value.target == post.target)
    ensures StatusOf(s.statuses, server).(update := None) == StatusOf(old(s.statuses), server).(update := None)
    ensures forall k :: k != server ==> StatusOf(s.statuses, k) == StatusOf(old(s.statuses), k)
  {
    var status := StatusOf(s.statuses, server);
    var previous := status.update;
    var progress := Progress(post.component, post.phase, post.target, post.message, now, now);
    if previous.Some? && previous.value.component == post.component &&
       (post.target == "" || previous.value.target == post.target) {
      if Terminal(previous.value.phase) &&
         (!Terminal(post.phase) || (previous.value.phase != Success && post.phase == Success)) {
        return true;
      }
      progress := progress.(startedAt := previous.value.startedAt);
      if post.target == "" {
        progress := progress.(target := previous.value.target);
      }
    }
    s.statuses := s.statuses[server := status.(update := Some(progress))];
    if throttled {
      return true;
    }
    if !saveOk {
      s.statuses := s.statuses[server := status.(update := previous)];
      return false;
    }
    return true;
  }

  // ---------- all posts of one attempt ----------

  /** The progress after posts at given times; `taken` tells which were not lost. */
  function AfterAll(start: Option<Progress>, posts: seq<Post>, times: seq<int>, taken: seq<bool>): Option<Progress>
    requires |posts| == |times| == |taken|
  {
    if posts == [] then start
    else
      var n := |posts| - 1;
      var before := AfterAll(start, posts[..n], times[..n], taken[..n]);
      if taken[n] then After(before, posts[n], times[n]) else before
  }

  predicate OfAttempt(attempt: Progress, posts: seq<Post>) {
    forall p :: p in posts ==> p.component == attempt.component && (p.target == "" || p.target == attempt.target)
  }

  /** Whatever is posted for an attempt, and whatever is lost, it keeps its component, target and
      start, by which the batch scheduler recognises it. */
  lemma {:induction false} AttemptKeepsItsStart(start: Progress, posts: seq<Post>, times: seq<int>, taken: seq<bool>)
    requires |posts| == |times| == |taken| && OfAttempt(start, posts)
    ensures var after := AfterAll(Some(start), posts, times, taken);
            after.Some? && after.value.component == start.component && after.value.target == start.target &&
            after.value.startedAt == start.startedAt
  {
    if posts != [] {
      var n := |posts| - 1;
      AttemptKeepsItsStart(start, posts[..n], times[..n], taken[..n]);
      assert posts[n] in posts;
    }
  }

  /** An attempt that is over stays over, and one that failed never succeeds; a success can still
      be corrected to a failure. */
  lemma {:induction false} FinishedStaysFinished(start: Progress, posts: seq<Post>, times: seq<int>, taken: seq<bool>)
    requires |posts| == |times| == |taken| && OfAttempt(start, posts) && Terminal(start.phase)
    ensures var after := AfterAll(Some(start), posts, times, taken);
            after.Some? && Terminal(after.value.phase) && (start.phase != Success ==> after.value.phase != Success)
  {
    if posts != [] {
      var n := |posts| - 1;
      FinishedStaysFinished(start, posts[..n], times[..n], taken[..n]);
      AttemptKeepsItsStart(start, posts[..n], times[..n], taken[..n]);
      assert posts[n] in posts;
    }
  }

  lemma {:induction false} RunningUntilEnded(start: Progress, posts: seq<Post>, times: seq<int>, taken: seq<bool>)
    requires |posts| == |times| == |taken| && !Terminal(start.phase)
    requires forall k :: 0 <= k < |posts| && taken[k] ==> !Terminal(posts[k].phase)
    ensures var after := AfterAll(Some(start), posts, times, taken);
            after.Some? && !Terminal(after.value.phase)
  {
    if posts != [] {
      var n := |posts| - 1;
      RunningUntilEnded(start, posts[..n], times[..n], taken[..n]);
    }
  }

  /** While no taken post has ended the attempt, its progress is that of the last post that was
      taken, and that of the start if none was. */
  lemma {:induction false} LastTakenPostShows(start: Progress, posts: seq<Post>, times: seq<int>, taken: seq<bool>,
                                              last: nat)
    requires |posts| == |times| == |taken| && OfAttempt(start, posts) && last <= |posts|
    requires start.phase !in {Success, Failed, RolledBack}
    requires forall k :: 0 <= k < last && taken[k] ==> posts[k].phase !in {Success, Failed, RolledBack}
    requires forall k :: last < k < |posts| ==> !taken[k]
    requires last < |posts| ==> taken[last]
    requires last == |posts| ==> forall k :: 0 <= k < |posts| ==> !taken[k]
    ensures AfterAll(Some(start), posts, times, taken) ==
            if last == |posts| then Some(start)
            else Some(start.(phase := posts[last].phase, message := posts[last].message, updatedAt := times[last]))
  {
    if posts != [] {
      var n := |posts| - 1;
      AttemptKeepsItsStart(start, posts[..n], times[..n], taken[..n]);
      assert posts[n] in posts;
      if last == n {
        RunningUntilEnded(start, posts[..n], times[..n], taken[..n]);
      } else {
        LastTakenPostShows(start, posts[..n], times[..n], taken[..n], if last < n then last else n);
      }
    }
  }

  /** A row takes over the phase of the progress it recognises, and is closed by one that is over. */
  lemma RowTakesOver(row: Row, update: Progress)
    requires HelperBatch.Reports(row, Some(update))
    ensures HelperBatch.Followed(row, Some(update)).phase == At(update.phase)
    ensures Terminal(update.phase) ==> !HelperBatch.Open(HelperBatch.Followed(row, Some(update)))
  {
  }

  /** The batch row that an attempt belongs to recognises it after any posts, lost or not, and takes
      over its phase; once the attempt is over the row is closed, and after a failure it does not
      become a success. */
  lemma RowFollowsItsAttempt(row: Row, start: Progress, posts: seq<Post>, times: seq<int>, taken: seq<bool>,
                             after: Option<Progress>)
    requires |posts| == |times| == |taken| && OfAttempt(start, posts)
    requires HelperBatch.Reports(row, Some(start)) && after == AfterAll(Some(start), posts, times, taken)
    ensures HelperBatch.Reports(row, after) && HelperBatch.Followed(row, after).phase == At(after.value.phase)
    ensures Terminal(start.phase) ==> !HelperBatch.Open(HelperBatch.Followed(row, after))
    ensures Terminal(start.phase) && start.phase != Success ==>
              HelperBatch.Followed(row, after).phase != At(Success)
  {
    AttemptKeepsItsStart(start, posts, times, taken);
    RowTakesOver(row, after.value);
    if Terminal(start.phase) {
      FinishedStaysFinished(start, posts, times, taken);
    }
  }
}
