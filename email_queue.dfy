/** The e-mail queue route (src/app/api/email-queue/route.ts): administrators
    list the 50 newest entries; any signed-in caller may enqueue a message,
    which is stored as a pending "general" e-mail. */
module EmailQueue {
  import opened Common
  import opened Entities
  import opened Auth

  /** `take: 50`. */
  const ListLimit: nat := 50

  /** The sort key of the listing. */
  function CreatedAt(e: EmailEntry): int {
    e.createdAt
  }

  /** `find({ order: { createdAt: "DESC" }, take: 50 })`: at most 50 entries
      of the queue, newest first. */
  function Newest(rows: seq<EmailEntry>): (r: seq<EmailEntry>)
    ensures |r| == Min(ListLimit, |rows|)
    ensures multiset(r) <= multiset(rows)
    ensures SortedDesc(r, CreatedAt)
  {
    var sorted := SortDesc(rows, CreatedAt);
    var r := sorted[..Min(ListLimit, |sorted|)];
    assert sorted == r + sorted[|r|..];
    r
  }

  /** In a newest-first listing, nothing after position `n - 1` is newer than it. */
  lemma LaterNoNewer(sorted: seq<EmailEntry>, n: nat, x: EmailEntry)
    requires SortedDesc(sorted, CreatedAt) && 0 < n <= |sorted|
    requires x in sorted[n..]
    ensures x.createdAt <= sorted[n - 1].createdAt
  {
    var k :| 0 <= k < |sorted[n..]| && sorted[n..][k] == x;
    assert sorted[n + k] == x;
  }

  lemma DropPrefix<T>(a: seq<T>, b: seq<T>)
    ensures multiset(a + b) - multiset(a) == multiset(b)
  {
    assert multiset(a + b) == multiset(a) + multiset(b);
  }

  /** A prefix of a newest-first listing leaves out nothing newer than its last entry. */
  lemma PrefixIsNewest(sorted: seq<EmailEntry>, n: nat)
    requires SortedDesc(sorted, CreatedAt) && 0 < n <= |sorted|
    ensures forall x :: x in multiset(sorted) - multiset(sorted[..n]) ==> x.createdAt <= sorted[n - 1].createdAt
  {
    assert sorted == sorted[..n] + sorted[n..];
    DropPrefix(sorted[..n], sorted[n..]);
    forall x | x in multiset(sorted) - multiset(sorted[..n]) ensures x.createdAt <= sorted[n - 1].createdAt {
      LaterNoNewer(sorted, n, x);
    }
  }

  /** The listing really is the newest: every entry it leaves out is no newer
      than the last one it shows. */
  lemma NewestLeavesOnlyOlder(rows: seq<EmailEntry>)
    ensures var r := Newest(rows);
      |r| > 0 ==> forall x :: x in multiset(rows) - multiset(r) ==> x.createdAt <= r[|r| - 1].createdAt
  {
    var sorted := SortDesc(rows, CreatedAt);
    var n := Min(ListLimit, |sorted|);
    assert Newest(rows) == sorted[..n];
    if n > 0 {
      PrefixIsNewest(sorted, n);
      assert multiset(rows) == multiset(sorted);
    }
  }

  /** GET: any valid token passes `withAuth`, then the handler itself demands
      the role "admin" exactly. */
  function Get(header: Option<string>, verify: string -> Option<JwtPayload>, rows: seq<EmailEntry>)
    : (r: Response<seq<EmailEntry>>)
    ensures r.Ok? <==> Authenticate(header, verify, None).Ok? && Authenticate(header, verify, None).value.role == "admin"
    ensures r.Ok? ==> r.value == Newest(rows)
    ensures Authenticate(header, verify, None).Ok? && Authenticate(header, verify, None).value.role != "admin" ==>
      r == Fail(403, "Insufficient permissions")
  {
    WithAuth(header, verify, None,
      (user: JwtPayload) => if user.role != "admin" then Fail(403, "Insufficient permissions") else Ok(Newest(rows)))
  }

  /** The JSON body of POST; `None` is a missing field. */
  datatype EmailRequest = EmailRequest(to: Option<string>, subject: Option<string>, content: Option<string>)

  /** The entry POST creates (its id is assigned by the save): the request's
      fields, type "general", status "pending", no attempts yet, at most 3, to
      be sent now. */
  function NewEntry(req: EmailRequest, now: int): (r: Response<EmailEntry>)
    ensures r.Fail? <==> !TruthyStr(req.to) || !TruthyStr(req.subject) || !TruthyStr(req.content)
    ensures r.Fail? ==> r == Fail(400, "To, subject, and content are required")
    ensures r.Ok? ==>
      r.value.toEmail == req.to.value && r.value.subject == req.subject.value && r.value.body == req.content.value &&
      r.value.emailType == "general" && r.value.status == "pending" &&
      r.value.attempts == 0 && r.value.maxAttempts == 3 &&
      r.value.scheduledSendTime == now && r.value.createdAt == now
  {
    if !TruthyStr(req.to) || !TruthyStr(req.subject) || !TruthyStr(req.content) then
      Fail(400, "To, subject, and content are required")
    else
      Ok(EmailEntry(0, req.to.value, req.subject.value, req.content.value, "general", "pending", 0, 3, now, now))
  }

  /** POST: `withAuth` without a role, so any authenticated caller may enqueue. */
  method Post(table: EmailQueueTable, header: Option<string>, verify: string -> Option<JwtPayload>,
              req: EmailRequest, now: int)
    returns (resp: Response<EmailEntry>)
    requires table.Valid()
    modifies table
    ensures table.Valid()
    ensures Authenticate(header, verify, None).Fail? ==>
      resp.Fail? && resp.status == 401 && table.rows == old(table.rows)
    ensures Authenticate(header, verify, None).Ok? ==>
      var d := NewEntry(req, now);
      (d.Fail? ==> resp == d && table.rows == old(table.rows)) &&
      (d.Ok? ==> resp == Ok(d.value.(emailQueueId := old(table.nextId))) && table.rows == old(table.rows) + [resp.value])
  {
    var auth := Authenticate(header, verify, None);
    if auth.Fail? {
      return Fail(auth.status, auth.message);
    }
    var d := NewEntry(req, now);
    if d.Fail? {
      return d;
    }
    var saved := table.Save(d.value);
    resp := Ok(saved);
  }

  /** Whatever the caller's role, a complete request is accepted once the token
      verifies; only GET looks at the role. */
  lemma AnyRoleMayEnqueue(t: string, verify: string -> Option<JwtPayload>, req: EmailRequest, now: int)
    requires t != "" && ' ' !in t && verify(t).Some?
    requires TruthyStr(req.to) && TruthyStr(req.subject) && TruthyStr(req.content)
    ensures Authenticate(Some("Bearer " + t), verify, None).Ok? && NewEntry(req, now).Ok?
    ensures verify(t).value.role != "admin" ==>
      Get(Some("Bearer " + t), verify, []) == Fail(403, "Insufficient permissions")
  {
    TokenFromHeaderIff("Bearer " + t, t);
  }
}
