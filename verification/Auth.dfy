/** The token store. The hash is a parameter; tokens are kept by the first sixteen characters of their hash. */
module Auth {
  import opened Wrappers

  const ID_LEN := 16

  datatype Token = Token(id: string, hash: string, createdAt: int, expiresAt: Option<int>, panes: seq<string>,
                         windows: seq<string>)

  predicate IsExpired(t: Token, now: int) {
    t.expiresAt.Some? && now > t.expiresAt.value
  }

  /** A hash long enough to cut an id from. */
  ghost predicate IsHash(sha: string -> string) {
    forall s :: |sha(s)| >= ID_LEN
  }

  function IDOf(sha: string -> string, plain: string): string
    requires |sha(plain)| >= ID_LEN
  {
    sha(plain)[..ID_LEN]
  }

  /** The token a plaintext is accepted as, if any. */
  function Accepted(sha: string -> string, tokens: map<string, Token>, plain: string, now: int): Option<Token>
    requires |sha(plain)| >= ID_LEN
  {
    var id := IDOf(sha, plain);
    if id in tokens && tokens[id].hash == sha(plain) && !IsExpired(tokens[id], now) then Some(tokens[id]) else None
  }

  function NewToken(sha: string -> string, plain: string, now: int, expiry: int, panes: seq<string>,
                    windows: seq<string>): Token
    requires |sha(plain)| >= ID_LEN
  {
    Token(IDOf(sha, plain), sha(plain), now, if expiry > 0 then Some(now + expiry) else None, panes, windows)
  }

  class Store {
    const sha: string -> string
    var tokens: map<string, Token>

    ghost predicate Valid()
      reads this
    {
      IsHash(sha) && forall id :: id in tokens ==>
        tokens[id].id == id && |tokens[id].hash| >= ID_LEN && id == tokens[id].hash[..ID_LEN]
    }

    constructor (sha: string -> string)
      requires IsHash(sha)
      ensures Valid() && tokens == map[] && this.sha == sha
    {
      this.sha, tokens := sha, map[];
    }

    /** Stores the token of a freshly drawn plaintext. */
    method Create(plain: string, now: int, expiry: int, panes: seq<string>, windows: seq<string>) returns (tok: Token)
      requires Valid()
      modifies this
      ensures Valid() && tok == NewToken(sha, plain, now, expiry, panes, windows)
      ensures tok.panes == panes && tok.windows == windows && tok.createdAt == now && tok.hash == sha(plain)
      ensures tokens == old(tokens)[tok.id := tok]
      ensures tokens == Next(sha, old(tokens), Change.Issue(plain, now, expiry, panes, windows))
    {
      var hash := sha(plain);
      var id := hash[..ID_LEN];
      tok := Token(id, hash, now, None, panes, windows);
      if expiry > 0 { tok := tok.(expiresAt := Some(now + expiry)); }
      tokens := tokens[id := tok];
    }

    method Verify(plain: string, now: int) returns (r: Option<Token>)
      requires Valid()
      ensures r == Accepted(sha, tokens, plain, now)
      ensures r.Some? ==> r.value.id == IDOf(sha, plain)
    {
      var hash := sha(plain);
      var id := hash[..ID_LEN];
      if id !in tokens { return None; }
      if tokens[id].hash != hash { return None; }
      if IsExpired(tokens[id], now) { return None; }
      return Some(tokens[id]);
    }

    method Revoke(id: string) returns (ok: bool)
      requires Valid()
      modifies this
      ensures Valid() && ok == (id in old(tokens)) && tokens == old(tokens) - {id}
    {
      ok := id in tokens;
      tokens := tokens - {id};
    }
  }

  /** An empty list of panes grants all of them. */
  method HasPaneAccess(t: Token, pane: string) returns (ok: bool)
    ensures ok <==> Grants(t, pane)
  {
    if |t.panes| == 0 { return true; }
    for i := 0 to |t.panes|
      invariant pane !in t.panes[..i]
    {
      if t.panes[i] == pane { return true; }
    }
    return false;
  }

  // ------------------------------------------------------------------ over whole runs

  datatype Change =
    | Issue(plain: string, now: int, expiry: int, panes: seq<string>, windows: seq<string>)
    | Revoke(id: string)

  predicate Touches(sha: string -> string, c: Change, id: string) {
    match c
    case Issue(plain, _, _, _, _) => |sha(plain)| >= ID_LEN && IDOf(sha, plain) == id
    case Revoke(i) => i == id
  }

  function Next(sha: string -> string, tokens: map<string, Token>, c: Change): map<string, Token> {
    match c
    case Issue(plain, now, expiry, panes, windows) =>
      if |sha(plain)| >= ID_LEN then
        var t := NewToken(sha, plain, now, expiry, panes, windows);
        tokens[t.id := t]
      else tokens
    case Revoke(id) => tokens - {id}
  }

  function Run(sha: string -> string, tokens: map<string, Token>, cs: seq<Change>): map<string, Token>
    decreases |cs|
  {
    if cs == [] then tokens else Run(sha, Next(sha, tokens, cs[0]), cs[1..])
  }

  lemma {:induction false} Untouched(sha: string -> string, tokens: map<string, Token>, cs: seq<Change>, id: string)
    requires forall i :: 0 <= i < |cs| ==> !Touches(sha, cs[i], id)
    ensures id in Run(sha, tokens, cs) <==> id in tokens
    ensures id in tokens ==> Run(sha, tokens, cs)[id] == tokens[id]
    decreases |cs|
  {
    if cs != [] {
      assert !Touches(sha, cs[0], id);
      Untouched(sha, Next(sha, tokens, cs[0]), cs[1..], id);
    }
  }

  /** A token grants a pane when it names no pane at all or that one. */
  predicate Grants(t: Token, pane: string) {
    t.panes == [] || pane in t.panes
  }

  /** What is issued is what is stored under the id. */
  lemma IssuedIsStored(sha: string -> string, tokens: map<string, Token>, issue: Change)
    requires issue.Issue? && |sha(issue.plain)| >= ID_LEN
    ensures var id, tokens' := IDOf(sha, issue.plain), Next(sha, tokens, issue);
            && id in tokens' && tokens' - {id} == tokens - {id}
            && var t := tokens'[id];
               && t.id == id && t.hash == sha(issue.plain) && t.createdAt == issue.now
               && t.panes == issue.panes && t.windows == issue.windows
               && (t.expiresAt.None? <==> issue.expiry <= 0)
               && (issue.expiry > 0 ==> t.expiresAt == Some(issue.now + issue.expiry))
  {}

  /** An issued plaintext is accepted, through any changes to other ids, exactly until it expires, as the token that was
      issued: with its scope, granting exactly the panes asked for, or every one when none was named. */
  lemma IssuedIsAcceptedUntilExpiry(sha: string -> string, tokens: map<string, Token>, issue: Change,
                                    cs: seq<Change>, t: int)
    requires issue.Issue? && |sha(issue.plain)| >= ID_LEN
    requires forall i :: 0 <= i < |cs| ==> !Touches(sha, cs[i], IDOf(sha, issue.plain))
    ensures var r := Accepted(sha, Run(sha, tokens, [issue] + cs), issue.plain, t);
            && (r.Some? <==> issue.expiry <= 0 || t <= issue.now + issue.expiry)
            && (r.Some? ==>
                  && r.value.id == IDOf(sha, issue.plain) && r.value.createdAt == issue.now
                  && r.value.panes == issue.panes && r.value.windows == issue.windows
                  && forall pane :: Grants(r.value, pane) <==> issue.panes == [] || pane in issue.panes)
  {
    var all := [issue] + cs;
    assert all[1..] == cs;
    IssuedIsStored(sha, tokens, issue);
    Untouched(sha, Next(sha, tokens, issue), cs, IDOf(sha, issue.plain));
  }

  /** After a revocation no plaintext of that id is accepted unless the id is issued again. */
  lemma RevokedIsNeverAccepted(sha: string -> string, tokens: map<string, Token>, id: string, cs: seq<Change>,
                               plain: string, t: int)
    requires |sha(plain)| >= ID_LEN && IDOf(sha, plain) == id
    requires forall i :: 0 <= i < |cs| ==> !Touches(sha, cs[i], id)
    ensures Accepted(sha, Run(sha, tokens, [Revoke(id)] + cs), plain, t).None?
  {
    var all := [Revoke(id)] + cs;
    assert all[1..] == cs;
    Untouched(sha, tokens - {id}, cs, id);
  }
}
