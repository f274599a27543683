/** The `agenda.run` procedure: an administrator starts the sync job by hand. */
module AgendaRouter {
  import opened Wrappers
  import opened Nft
  import opened Trpc
  import opened Users
  import opened Access
  import opened Agenda

  /** The procedure's `meta.allowed`. */
  const Admins: seq<Role> := [ADMIN]

  /** The input schema's complaint (its text is left to the schema library). */
  const InvalidInput := "Invalid input"

  const JobNotFound := "Job not found"

  /** The strict input schema: exactly the key `name`, holding `nfts:fetch`. */
  predicate ValidInput(input: map<string, Scalar>) {
    input.Keys == {"name"} && input["name"] == Str(FetchJob)
  }

  /** `run`: the role check, the input check, the job lookup, then the job's
      handler; `feeds` is what the marketplaces answer during that run. */
  method Run(s: Scheduler, user: Option<User>, input: map<string, Scalar>, feeds: seq<Feed>, now: int, settings: Settings)
    returns (r: Result<bool, TrpcError>)
    requires s.Consistent() && Fed(s.collections, feeds)
    modifies s
    ensures s.Consistent()
    ensures s.jobs == old(s.jobs) && s.collections == old(s.collections)
    ensures !HoldsAny(user, Admins) ==>
              r == Failure(TrpcError(FORBIDDEN, NoAccess)) && unchanged(s)
    ensures HoldsAny(user, Admins) && !ValidInput(input) ==>
              r == Failure(TrpcError(BAD_REQUEST, InvalidInput)) && unchanged(s)
    ensures HoldsAny(user, Admins) && ValidInput(input) && old(s.GetJob(FetchJob)).None? ==>
              r == Failure(TrpcError(NOT_FOUND, JobNotFound)) && unchanged(s)
    ensures HoldsAny(user, Admins) && ValidInput(input) && old(s.GetJob(FetchJob)).Some? ==>
              var j := old(s.GetJob(FetchJob)).value;
              var skipped := old(s.jobs)[j].disabled;
              r == Success(true) &&
              s.assets == Snapshot(old(s.assets), skipped, Gathered(old(s.collections), feeds, now)) &&
              s.journal == old(s.journal) + RunEvents(j, skipped, Gathered(old(s.collections), feeds, now))
  {
    var allowed := CheckRoles(Some(Admins), user);
    if allowed.Failure? {
      return Failure(allowed.error);
    }
    if !ValidInput(input) {
      return Failure(TrpcError(BAD_REQUEST, InvalidInput));
    }
    var job := s.GetJob(FetchJob);
    if job.None? {
      return Failure(TrpcError(NOT_FOUND, JobNotFound));
    }
    s.Fetch(job.value, feeds, now, settings);
    r := Success(true);
  }

  /** Only administrators get past the role check: a user holding no role, or
      no user at all, is refused whatever the input. */
  lemma OnlyAdmins(user: Option<User>)
    requires user.None? || user.value.roles == []
    ensures CheckRoles(Some(Admins), user) == Failure(TrpcError(FORBIDDEN, NoAccess))
  {
  }

  /** The schema accepts exactly one input. */
  lemma OnlyFetchJobInput(input: map<string, Scalar>)
    ensures ValidInput(input) <==> input == map["name" := Str(FetchJob)]
  {
    if ValidInput(input) {
      assert input.Keys == map["name" := Str(FetchJob)].Keys;
    }
  }
}
