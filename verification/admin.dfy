/** Administrator checks (lib/admin.ts): membership in the comma-separated
    `ADMIN_EMAILS` allow-list, and the lookup from an identity-provider user
    id to an e-mail address that fails closed. */
module Admin {
  import opened Wrappers
  import JsText

  /** `pieces` cut `v` at every comma: they join back to `v` and none holds a comma. */
  predicate CommaPieces(pieces: seq<string>, v: string) {
    && |pieces| >= 1
    && JsText.Join(pieces, ",") == v
    && forall i :: 0 <= i < |pieces| ==> ',' !in pieces[i]
  }

  /** The allow-list entries: the variable split on `,`, each entry trimmed;
      no entries when the variable is unset. A set variable always gives at
      least one entry, and no entry holds a comma or starts or ends with
      white space. */
  function AllowList(adminEmails: Option<string>): (r: seq<string>)
    ensures adminEmails.None? ==> r == []
    ensures adminEmails.Some? ==>
              exists pieces :: CommaPieces(pieces, adminEmails.value) && |pieces| == |r|
                               && forall i :: 0 <= i < |r| ==> r[i] == JsText.Trim(pieces[i])
    ensures forall i :: 0 <= i < |r| ==>
              && ',' !in r[i]
              && (r[i] == [] || (!JsText.IsSpace(r[i][0]) && !JsText.IsSpace(r[i][|r[i]| - 1])))
  {
    match adminEmails
    case None => []
    case Some(list) =>
      var parts := JsText.Split(list, ',');
      var r := seq(|parts|, i requires 0 <= i < |parts| => JsText.Trim(parts[i]));
      JsText.JoinSplit(list, ',');
      assert CommaPieces(parts, list);
      forall i | 0 <= i < |r| ensures ',' !in r[i] {
        JsText.TrimAbsent(parts[i], ',');
      }
      r
  }

  /** The cut at commas is unique, so the allow-list is determined by it:
      any comma-free pieces that join to the variable, trimmed, are the
      allow-list. */
  lemma AllowListOfPieces(v: string, pieces: seq<string>)
    requires CommaPieces(pieces, v)
    ensures AllowList(Some(v)) == seq(|pieces|, i requires 0 <= i < |pieces| => JsText.Trim(pieces[i]))
  {
    JsText.SplitJoin(pieces, ',');
  }

  /** `isAdmin`: the e-mail equals one of the entries exactly (the e-mail
      itself is not trimmed, and case matters). */
  function IsAdmin(adminEmails: Option<string>, email: string): (r: bool)
    ensures adminEmails.None? ==> !r
    ensures r ==> ',' !in email && (email == [] || (!JsText.IsSpace(email[0]) && !JsText.IsSpace(email[|email| - 1])))
  {
    email in AllowList(adminEmails)
  }

  /** Nobody is an administrator when the allow-list is unset. */
  lemma UnsetAllowsNobody(email: string)
    ensures !IsAdmin(None, email)
  {
  }

  /** Addresses written as `a,b,c` (without commas or surrounding white space)
      make exactly those addresses administrators. */
  lemma JoinedListMembership(emails: seq<string>, email: string)
    requires |emails| >= 1
    requires forall i :: 0 <= i < |emails| ==> ',' !in emails[i] && JsText.Trim(emails[i]) == emails[i]
    ensures IsAdmin(Some(JsText.Join(emails, ",")), email) <==> email in emails
  {
    AllowListOfJoin(emails);
  }

  /** The allow-list of a comma-joined list of trimmed, comma-free addresses is that list. */
  lemma AllowListOfJoin(emails: seq<string>)
    requires |emails| >= 1
    requires forall i :: 0 <= i < |emails| ==> ',' !in emails[i] && JsText.Trim(emails[i]) == emails[i]
    ensures AllowList(Some(JsText.Join(emails, ","))) == emails
  {
    var joined := JsText.Join(emails, ",");
    JsText.SplitJoin(emails, ',');
    var parts := JsText.Split(joined, ',');
    assert parts == emails;
    var l := AllowList(Some(joined));
    assert |l| == |emails|;
    forall i | 0 <= i < |l| ensures l[i] == emails[i] {
      assert l[i] == JsText.Trim(parts[i]);
    }
  }

  /** White space around an entry does not matter. */
  lemma PaddedEntry(email: string)
    requires ',' !in email && |email| > 0 && !JsText.IsSpace(email[0]) && !JsText.IsSpace(email[|email| - 1])
    ensures IsAdmin(Some(" " + email + " "), email)
  {
    var padded := " " + email + " ";
    assert ',' !in padded by {
      assert forall k :: 1 <= k < |padded| - 1 ==> padded[k] == email[k - 1];
    }
    JsText.SplitPiece(padded, ',');
    TrimPadded(email);
    assert AllowList(Some(padded))[0] == email;
  }

  /** White space in the e-mail does matter: it is compared untrimmed. */
  lemma PaddedEmail(email: string)
    requires ',' !in email && |email| > 0 && !JsText.IsSpace(email[0]) && !JsText.IsSpace(email[|email| - 1])
    ensures !IsAdmin(Some(email), " " + email)
  {
    TrimPadded(email);
    assert JsText.Join([email], ",") == email;
    AllowListOfJoin([email]);
    assert |" " + email| != |email|;
  }

  /** A variable set to the empty string is the one-entry list `[""]`: it
      admits only the empty e-mail. */
  lemma EmptyVariable(email: string)
    ensures IsAdmin(Some(""), email) <==> email == ""
  {
    assert JsText.Split("", ',') == [""];
    assert JsText.Trim("") == "";
    assert AllowList(Some("")) == [""];
  }

  /** A string with non-space ends trims to itself, and so does it padded by spaces. */
  lemma TrimPadded(email: string)
    requires |email| > 0 && !JsText.IsSpace(email[0]) && !JsText.IsSpace(email[|email| - 1])
    ensures JsText.Trim(" " + email + " ") == email
    ensures JsText.Trim(email) == email
  {
    var p := " " + email + " ";
    assert JsText.TrimStart(p) == JsText.TrimStart(p[1..]);
    assert p[1..] == email + " ";
    assert JsText.TrimStart(email + " ") == email + " ";
    assert (email + " ")[..|email + " "| - 1] == email;
    assert JsText.TrimEnd(email + " ") == JsText.TrimEnd(email);
    assert JsText.TrimEnd(email) == email;
    assert JsText.TrimStart(email) == email;
  }

  /** The user store's answer to a lookup: `Err` when the query throws. */
  datatype StoreError = StoreError(message: string)

  /** `checkAdminByClerkId`: the user's e-mail is looked up by identity-provider
      id; an unknown id or a store error gives `false`. */
  function CheckAdminByClerkId(adminEmails: Option<string>, clerkId: string,
                               users: Result<map<string, string>, StoreError>): (r: bool)
    ensures r <==> users.Ok? && clerkId in users.value && IsAdmin(adminEmails, users.value[clerkId])
  {
    match users
    case Err(_) => false
    case Ok(emailOf) => if clerkId !in emailOf then false else IsAdmin(adminEmails, emailOf[clerkId])
  }

  /** The check fails closed: a store error or an unknown id is never an administrator. */
  lemma CheckAdminFailsClosed(adminEmails: Option<string>, clerkId: string, users: Result<map<string, string>, StoreError>)
    requires users.Err? || clerkId !in users.value
    ensures !CheckAdminByClerkId(adminEmails, clerkId, users)
  {
  }
}
