/** The request guards (backend/src/middleware/auth.js): `protect` reads a
    Bearer token, verifies it and attaches the stored user; `authorize`
    admits only the listed roles. Token verification is foreign: `verify`
    gives the user id a token carries, or nothing when the token is
    invalid or expired (or its library throws). */
module AuthMiddleware {
  import opened Domain
  import opened Db

  const NoTokenMsg: string := "Not authorized to access this route"
  const InvalidTokenMsg: string := "Invalid or expired token"
  const Scheme: string := "Bearer"

  predicate StartsWith(s: string, prefix: string)
  {
    |prefix| <= |s| && s[..|prefix|] == prefix
  }

  /** Re-joins pieces with `sep` between them. */
  function Join(pieces: seq<string>, sep: char): string
    requires |pieces| >= 1
    decreases |pieces|
  {
    if |pieces| == 1 then pieces[0] else pieces[0] + [sep] + Join(pieces[1..], sep)
  }

  /** `s.split(sep)` for a one-character separator: the maximal runs
      between separators, so joining them back gives `s`. */
  function Split(s: string, sep: char): (r: seq<string>)
    ensures |r| >= 1
    ensures forall i :: 0 <= i < |r| ==> sep !in r[i]
    ensures Join(r, sep) == s
    decreases |s|
  {
    if s == [] then [""]
    else
      var rest := Split(s[1..], sep);
      if s[0] == sep then
        assert ([""] + rest)[1..] == rest;
        [""] + rest
      else
        var r := [[s[0]] + rest[0]] + rest[1..];
        assert r[1..] == rest[1..];
        r
  }

  /** The token of an `Authorization` header: present only when the header
      starts with `Bearer`, and then its second space-separated piece,
      unless that piece is missing or empty. */
  function BearerToken(header: Option<string>): (r: Option<string>)
    ensures r.Some? ==> && header.Some? && StartsWith(header.value, Scheme)
                        && r.value != [] && ' ' !in r.value
    ensures r.Some? ==> exists rest :: header.value == Split(header.value, ' ')[0] + " " + r.value + rest
    ensures header.None? || !StartsWith(header.value, Scheme) ==> r.None?
    ensures r.Some? ==> r.value == Split(header.value, ' ')[1]
    ensures (&& header.Some? && StartsWith(header.value, Scheme)
             && |Split(header.value, ' ')| > 1 && Split(header.value, ' ')[1] != "") ==> r.Some?
  {
    if header.Some? && header.value != "" && StartsWith(header.value, Scheme) then
      var pieces := Split(header.value, ' ');
      if |pieces| > 1 && pieces[1] != "" then
        SecondPiece(pieces, ' ');
        Some(pieces[1])
      else None
    else None
  }

  /** A string of at least two pieces starts with the first, a separator
      and the second. */
  lemma SecondPiece(pieces: seq<string>, sep: char)
    requires |pieces| >= 2
    ensures Join(pieces, sep) == pieces[0] + [sep] + pieces[1] + Join(pieces[1..], sep)[|pieces[1]|..]
  {
    var tail := Join(pieces[1..], sep);
    if |pieces| == 2 {
      assert tail == pieces[1];
    } else {
      assert tail == pieces[1] + [sep] + Join(pieces[2..], sep) by {
        assert pieces[1..][1..] == pieces[2..];
      }
    }
  }

  /** `Bearer <t>` yields `t` for any non-empty token without spaces. */
  lemma BearerRoundTrip(t: string)
    requires t != [] && ' ' !in t
    ensures BearerToken(Some("Bearer " + t)) == Some(t)
  {
    assert StartsWith(Scheme, Scheme);
    assert "Bearer " + t == Scheme + " " + t;
    SchemeWithoutSpace(Scheme, t);
  }

  /** Splitting `a + [sep] + b`, where neither holds `sep`, gives `[a, b]`. */
  lemma {:induction false} SplitPrefix(a: string, b: string, sep: char)
    requires sep !in a && sep !in b
    ensures Split(a + [sep] + b, sep) == [a, b]
    decreases |a|
  {
    if a == [] {
      assert [sep] + b == a + [sep] + b;
      assert ([sep] + b)[1..] == b;
      SplitNone(b, sep);
    } else {
      assert (a + [sep] + b)[1..] == a[1..] + [sep] + b;
      SplitPrefix(a[1..], b, sep);
      assert [a[0]] + a[1..] == a;
    }
  }

  /** A string without the separator is one piece. */
  lemma {:induction false} SplitNone(s: string, sep: char)
    requires sep !in s
    ensures Split(s, sep) == [s]
    decreases |s|
  {
    if s != [] {
      SplitNone(s[1..], sep);
      assert [s[0]] + s[1..] == s;
    }
  }

  /** The check only looks at the prefix `Bearer`, so any first word that
      starts with it, `Bearerx` as well as `Bearer`, is accepted as the
      scheme, and the word after it is the token. */
  lemma {:induction false} SchemeWithoutSpace(w: string, t: string)
    requires StartsWith(w, Scheme) && ' ' !in w
    requires t != [] && ' ' !in t
    ensures BearerToken(Some(w + " " + t)) == Some(t)
  {
    var h := w + " " + t;
    assert StartsWith(h, Scheme) by {
      assert h[..|Scheme|] == w[..|Scheme|];
    }
    assert h == w + [' '] + t;
    SplitPrefix(w, t, ' ');
  }

  /** The loose prefix test on one header. */
  lemma SchemeRunOn()
    ensures BearerToken(Some("Bearerx abc")) == Some("abc")
  {
    var w := "Bearerx";
    assert StartsWith(w, Scheme) by {
      assert w[..|Scheme|] == Scheme;
    }
    assert w + " " + "abc" == "Bearerx abc";
    SchemeWithoutSpace(w, "abc");
  }

  /** What `protect` decides, including the `catch` that rewrites every
      failure after token extraction, the unknown or inactive user among
      them, into one message. */
  function Authenticate(users: map<Id, User>, header: Option<string>, verify: string -> Option<Id>): (r: Result<Id>)
    ensures BearerToken(header).None? <==> r == Err(Authentication(NoTokenMsg))
    ensures r.Err? ==> r.error in {Authentication(NoTokenMsg), Authentication(InvalidTokenMsg)}
    ensures r.Ok? <==> && BearerToken(header).Some?
                       && verify(BearerToken(header).value).Some?
                       && verify(BearerToken(header).value).value in users
                       && users[verify(BearerToken(header).value).value].isActive
    ensures r.Ok? ==> r.value == verify(BearerToken(header).value).value
  {
    var token := BearerToken(header);
    if token.None? then Err(Authentication(NoTokenMsg))
    else
      var decoded := verify(token.value);
      if decoded.Some? && decoded.value in users && users[decoded.value].isActive then Ok(decoded.value)
      else Err(Authentication(InvalidTokenMsg))
  }

  /** The request as the guards see it. */
  class Request {
    var authorization: Option<string>
    /** `req.user`: the authenticated user and its id. */
    var user: Option<(Id, User)>

    constructor (authorization: Option<string>)
      ensures this.authorization == authorization && user.None?
    {
      this.authorization := authorization;
      user := None;
    }
  }

  /** `protect`: on success `req.user` is the stored, active user the token
      names; on failure the request is left as it was. */
  method Protect(db: Store, req: Request, verify: string -> Option<Id>) returns (r: Result<Id>)
    modifies req`user
    ensures r == Authenticate(db.users, req.authorization, verify)
    ensures r.Ok? ==> r.value in db.users && db.users[r.value].isActive && req.user == Some((r.value, db.users[r.value]))
    ensures r.Err? ==> req.user == old(req.user)
  {
    var token := BearerToken(req.authorization);
    if token.None? {
      return Err(Authentication(NoTokenMsg));
    }
    // The try block: any failure in it reaches the same catch.
    var decoded := verify(token.value);
    if decoded.Some? {
      var id := decoded.value;
      if id in db.users && db.users[id].isActive {
        req.user := Some((id, db.users[id]));
        return Ok(id);
      }
    }
    r := Err(Authentication(InvalidTokenMsg));
  }

  function DeniedMsg(role: string): string
  {
    "Role '" + role + "' is not authorized to access this route"
  }

  /** `authorize(...roles)` for a user of role `role`. */
  function Authorize(roles: seq<string>, role: string): (r: Result<()>)
    ensures r.Ok? <==> role in roles
    ensures r.Err? ==> r.error == Authorization(DeniedMsg(role))
  {
    if role in roles then Ok(()) else Err(Authorization(DeniedMsg(role)))
  }

  /** The admin routes' guard chain, `protect` then `authorize('admin')`,
      admits exactly the active admins the token names. */
  lemma AdminGate(users: map<Id, User>, header: Option<string>, verify: string -> Option<Id>, id: Id)
    ensures (Authenticate(users, header, verify) == Ok(id) && Authorize([AdminRole], users[id].role).Ok?) <==>
            (&& BearerToken(header).Some? && verify(BearerToken(header).value) == Some(id)
             && IsActiveAdmin(users, id))
  {
  }
}
