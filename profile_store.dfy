/** The profile store of src/store/profile.ts with the `UserProfile` of
    src/types/profile.ts: a profile that `setProfile` overlays with a
    partial profile and `reset` sets back to the default. Persistence to
    local storage and the hydration flag are not modelled. */
module ProfileStore {
  import opened Wrappers

  /** `avatarUrl?: string | null`: absent (`undefined`), `null`, or a URL. */
  datatype Avatar = Undefined | Null | Url(url: string)

  datatype UserProfile = UserProfile(
    name: string,
    email: string,
    bio: Option<string>,
    skills: Option<seq<string>>,
    avatarUrl: Avatar)

  /** `Partial<UserProfile>`: `None` is a key the object does not have;
      an optional field may also be present and set to `undefined`. */
  datatype ProfilePatch = ProfilePatch(
    name: Option<string>,
    email: Option<string>,
    bio: Option<Option<string>>,
    skills: Option<Option<seq<string>>>,
    avatarUrl: Option<Avatar>)

  const EMPTY_PATCH: ProfilePatch := ProfilePatch(None, None, None, None, None)

  const DEFAULT_PROFILE: UserProfile :=
    UserProfile("Basia Borkowska", "bborkowska1881@gmail.com", None, None, Null)

  /** `{ ...profile, ...p }`: every key present in `p` wins, every other
      field is kept. */
  function Merge(profile: UserProfile, p: ProfilePatch): (r: UserProfile)
    ensures r.name == (if p.name.Some? then p.name.value else profile.name)
    ensures r.email == (if p.email.Some? then p.email.value else profile.email)
    ensures r.bio == (if p.bio.Some? then p.bio.value else profile.bio)
    ensures r.skills == (if p.skills.Some? then p.skills.value else profile.skills)
    ensures r.avatarUrl == (if p.avatarUrl.Some? then p.avatarUrl.value else profile.avatarUrl)
  {
    UserProfile(
      p.name.GetOr(profile.name),
      p.email.GetOr(profile.email),
      p.bio.GetOr(profile.bio),
      p.skills.GetOr(profile.skills),
      p.avatarUrl.GetOr(profile.avatarUrl))
  }

  /** `{ ...p, ...q }` on two partial profiles. */
  function Then(p: ProfilePatch, q: ProfilePatch): ProfilePatch
  {
    ProfilePatch(
      if q.name.Some? then q.name else p.name,
      if q.email.Some? then q.email else p.email,
      if q.bio.Some? then q.bio else p.bio,
      if q.skills.Some? then q.skills else p.skills,
      if q.avatarUrl.Some? then q.avatarUrl else p.avatarUrl)
  }

  /** `setProfile({})` changes nothing. */
  lemma MergeEmpty(profile: UserProfile)
    ensures Merge(profile, EMPTY_PATCH) == profile
  {
  }

  /** Applying the same partial profile twice is applying it once. */
  lemma MergeIdempotent(profile: UserProfile, p: ProfilePatch)
    ensures Merge(Merge(profile, p), p) == Merge(profile, p)
  {
  }

  /** Two successive `setProfile` calls act as one call with the later
      partial spread over the earlier one. */
  lemma MergeThen(profile: UserProfile, p: ProfilePatch, q: ProfilePatch)
    ensures Merge(Merge(profile, p), q) == Merge(profile, Then(p, q))
  {
  }

  /** A partial profile naming every field replaces the profile whatever it
      was. */
  lemma MergeFullPatch(a: UserProfile, b: UserProfile, full: UserProfile)
    ensures var p := ProfilePatch(Some(full.name), Some(full.email), Some(full.bio),
                                  Some(full.skills), Some(full.avatarUrl));
      Merge(a, p) == full && Merge(b, p) == full
  {
  }

  /** The default profile has a `null` avatar and no bio or skills. */
  lemma DefaultProfileShape()
    ensures DEFAULT_PROFILE.avatarUrl == Null
    ensures DEFAULT_PROFILE.bio.None? && DEFAULT_PROFILE.skills.None?
    ensures DEFAULT_PROFILE.name == "Basia Borkowska"
  {
  }

  /** The `profile` field of the store. */
  class ProfileState {
    var profile: UserProfile

    constructor ()
      ensures profile == DEFAULT_PROFILE
    {
      profile := DEFAULT_PROFILE;
    }

    /** `setProfile` */
    method SetProfile(p: ProfilePatch)
      modifies this`profile
      ensures profile == Merge(old(profile), p)
    {
      profile := Merge(profile, p);
    }

    /** `reset` */
    method Reset()
      modifies this`profile
      ensures profile == DEFAULT_PROFILE
    {
      profile := DEFAULT_PROFILE;
    }
  }
}
