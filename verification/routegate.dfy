/**
 The route gate run before every request: in production, admin pages need
 a session whose metadata and whose stored profile both carry an admin or
 superadmin role. Paths are classified by prefix, with `startsWith`.
 */
module RouteGate {

  import opened Opt
  import JsString

  const AdminPrefixes: seq<string> := ["/admin"]

  const ProtectedPrefixes: seq<string> := AdminPrefixes

  /** Framework assets, public pages and API routes are never gated. */
  const PublicPrefixes: seq<string> := ["/_next", "/favicon.ico", "/public", "/auth", "/hotlines", "/mdrrmo-info", "/api"]

  /** `prefixes.some(p => path.startsWith(p))`. */
  function MatchesAny(path: string, prefixes: seq<string>): (r: bool)
    ensures r <==> exists i :: 0 <= i < |prefixes| && JsString.StartsWith(path, prefixes[i])
  {
    if |prefixes| == 0 then false
    else
      assert forall i :: 1 <= i < |prefixes| ==> prefixes[i] == prefixes[1..][i - 1];
      JsString.StartsWith(path, prefixes[0]) || MatchesAny(path, prefixes[1..])
  }

  /** The signed-in user as the session reports it; the role comes from the user's metadata. */
  datatype Session = Session(userId: string, metadataRole: Option<string>)

  /** `getSession()`: an error flag and the session, if any. */
  datatype SessionLookup = SessionLookup(error: bool, session: Option<Session>)

  /** The stored profile's `user_type`, which may be null. */
  datatype Profile = Profile(userType: Option<string>)

  /** The profile query: it threw, or it answered with a profile (possibly none) and an error flag. */
  datatype ProfileLookup = ProfileThrew | ProfileAnswered(profile: Option<Profile>, error: bool)

  /** Pass the request on, or redirect to `to`, with `redirectedFrom` set when it is given. */
  datatype Decision = PassThrough | Redirect(to: string, redirectedFrom: Option<string>)

  /** The remote reads the gate makes. */
  datatype Lookup = ReadSession | ReadProfile(userId: string)

  datatype GateRun = GateRun(decision: Decision, lookups: seq<Lookup>)

  /** A role that may see admin pages. */
  predicate AdminRole(role: Option<string>) {
    role == Some("admin") || role == Some("superadmin")
  }

  /** The stored profile's verdict: present, read without error, with an admin role. */
  predicate ProfileAdmits(p: ProfileLookup) {
    p.ProfileAnswered? && p.profile.Some? && !p.error && AdminRole(p.profile.value.userType)
  }

  /** `authSessionMiddleware`. */
  function Gate(production: bool, path: string, s: SessionLookup, p: ProfileLookup): (r: GateRun)
    ensures !production || MatchesAny(path, PublicPrefixes) <==> r.lookups == []
    ensures r.lookups == [] ==> r.decision == PassThrough
    ensures r.lookups != [] ==> r.lookups[0] == ReadSession
    ensures r.decision.Redirect? ==> MatchesAny(path, ProtectedPrefixes)
    ensures r.decision == Redirect("/unauthorized", None) ==> r.lookups == [ReadSession]
    ensures (exists id :: ReadProfile(id) in r.lookups) ==>
      && s.session.Some? && !s.error && AdminRole(s.session.value.metadataRole)
      && r.lookups == [ReadSession, ReadProfile(s.session.value.userId)]
  {
    if !production then GateRun(PassThrough, [])
    else if MatchesAny(path, PublicPrefixes) then GateRun(PassThrough, [])
    else
      var isProtected := MatchesAny(path, ProtectedPrefixes);
      var isAdminRoute := MatchesAny(path, AdminPrefixes);
      if !isProtected then GateRun(PassThrough, [ReadSession])
      else if s.error || s.session.None? then GateRun(Redirect("/", Some(path)), [ReadSession])
      else if isAdminRoute && !AdminRole(s.session.value.metadataRole) then
        GateRun(Redirect("/unauthorized", None), [ReadSession])
      else
        var lookups := [ReadSession, ReadProfile(s.session.value.userId)];
        match p
        case ProfileThrew => GateRun(Redirect("/", None), lookups)
        case ProfileAnswered(profile, error) =>
          if profile.None? || error then GateRun(Redirect("/", None), lookups)
          else if isAdminRoute && !AdminRole(profile.value.userType) then GateRun(Redirect("/", None), lookups)
          else GateRun(PassThrough, lookups)
  }

  /** A path is protected exactly when it is an admin route, exactly when it starts with `/admin`. */
  lemma ProtectedIsAdmin(path: string)
    ensures MatchesAny(path, ProtectedPrefixes) <==> MatchesAny(path, AdminPrefixes)
    ensures MatchesAny(path, AdminPrefixes) <==> JsString.StartsWith(path, "/admin")
  {
  }

  /** Because classification is by prefix, `/administrator` is gated like `/admin`. */
  lemma AdministratorIsGated()
    ensures MatchesAny("/administrator", ProtectedPrefixes)
    ensures !MatchesAny("/administrator", PublicPrefixes)
  {
    assert JsString.StartsWith("/administrator", "/admin");
    AdminNotPublic("/administrator");
  }

  /** No path is both public and an admin route. */
  lemma AdminNotPublic(path: string)
    requires JsString.StartsWith(path, "/admin")
    ensures !MatchesAny(path, PublicPrefixes)
  {
    assert path[1] == 'a' && path[2] == 'd';
  }

  /**
   In production, an admin page is served exactly when the session is read
   without error, its metadata role is admin or superadmin, and the stored
   profile is read without error and carries such a role too.
   */
  lemma PassIffAuthorised(path: string, s: SessionLookup, p: ProfileLookup)
    requires JsString.StartsWith(path, "/admin")
    ensures Gate(true, path, s, p).decision == PassThrough <==>
      && !s.error && s.session.Some?
      && AdminRole(s.session.value.metadataRole)
      && ProfileAdmits(p)
  {
    AdminNotPublic(path);
    ProtectedIsAdmin(path);
  }

  /** An admin page without a session sends the visitor home, remembering where they were going. */
  lemma NoSessionRemembersPath(path: string, s: SessionLookup, p: ProfileLookup)
    requires JsString.StartsWith(path, "/admin")
    requires s.error || s.session.None?
    ensures Gate(true, path, s, p) == GateRun(Redirect("/", Some(path)), [ReadSession])
  {
    AdminNotPublic(path);
    ProtectedIsAdmin(path);
  }

  /** A signed-in user whose metadata role is not an admin role is turned away before the profile is read. */
  lemma WrongMetadataRoleUnauthorized(path: string, s: SessionLookup, p: ProfileLookup)
    requires JsString.StartsWith(path, "/admin")
    requires !s.error && s.session.Some? && !AdminRole(s.session.value.metadataRole)
    ensures Gate(true, path, s, p) == GateRun(Redirect("/unauthorized", None), [ReadSession])
  {
    AdminNotPublic(path);
    ProtectedIsAdmin(path);
  }

  /**
   Once the session passes, a profile lookup that throws, finds nothing,
   reports an error or carries a non-admin role sends the visitor home,
   without remembering the path, after reading the session and then the profile.
   */
  lemma ProfileRefusedRedirectsHome(path: string, s: SessionLookup, p: ProfileLookup)
    requires JsString.StartsWith(path, "/admin")
    requires !s.error && s.session.Some? && AdminRole(s.session.value.metadataRole)
    requires !ProfileAdmits(p)
    ensures Gate(true, path, s, p) == GateRun(Redirect("/", None), [ReadSession, ReadProfile(s.session.value.userId)])
  {
    AdminNotPublic(path);
    ProtectedIsAdmin(path);
  }

  /** Outside the admin prefix the decision is always to pass, whatever the session and profile. */
  lemma UnprotectedPasses(production: bool, path: string, s: SessionLookup, p: ProfileLookup)
    requires !JsString.StartsWith(path, "/admin")
    ensures Gate(production, path, s, p).decision == PassThrough
  {
    ProtectedIsAdmin(path);
  }
}
