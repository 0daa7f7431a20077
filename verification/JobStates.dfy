/** The v1 job states and their transition table. */
module JobStates {
  datatype JobState =
    | Queued
    | Dispatching
    | TransportDelivered
    | Running
    | Succeeded
    | Failed
    | Cancelled
    | Expired
    | NeedsAttention

  function Transitions(s: JobState): set<JobState> {
    match s
    case Queued => {Dispatching, Cancelled, Expired, Failed}
    case Dispatching => {TransportDelivered, Running, Failed, Cancelled, Expired, NeedsAttention}
    case TransportDelivered => {Running, Failed, Cancelled, Expired, NeedsAttention}
    case Running => {Succeeded, Failed, Cancelled, Expired, NeedsAttention}
    case NeedsAttention => {Succeeded, Failed}
    case _ => {}
  }

  predicate IsTerminal(s: JobState) {
    s == Succeeded || s == Failed || s == Cancelled || s == Expired || s == NeedsAttention
  }

  predicate IsUncertain(s: JobState) {
    s == Dispatching || s == TransportDelivered || s == Running
  }

  /** How many transitions a job can still make. */
  function Rank(s: JobState): nat {
    match s
    case Queued => 5
    case Dispatching => 4
    case TransportDelivered => 3
    case Running => 2
    case NeedsAttention => 1
    case _ => 0
  }

  ghost predicate IsPath(h: seq<JobState>) {
    forall i, j :: 0 <= i && j == i + 1 && j < |h| ==> h[j] in Transitions(h[i])
  }

  /** The rank falls at every step, so a path that starts queued has at most six states and repeats none. */
  lemma {:induction false} PathsAreShort(h: seq<JobState>)
    requires h != [] && IsPath(h)
    ensures |h| + Rank(h[|h| - 1]) <= 1 + Rank(h[0])
    ensures forall i, j :: 0 <= i < j < |h| ==> Rank(h[j]) < Rank(h[i])
  {
    if |h| > 1 {
      var n := |h| - 1;
      PathsAreShort(h[..n]);
      assert h[..n][n - 1] == h[n - 1] && h[n] in Transitions(h[n - 1]);
      forall i, j | 0 <= i < j < |h| ensures Rank(h[j]) < Rank(h[i]) {
        if j < n {
          assert h[..n][i] == h[i] && h[..n][j] == h[j];
        } else if i < n - 1 {
          assert h[..n][i] == h[i];
        }
      }
    }
  }

  /** The bound is met. */
  lemma LongestPath()
    ensures var h := [Queued, Dispatching, TransportDelivered, Running, NeedsAttention, Succeeded]; IsPath(h) && |h| == 6
  {
  }
}
