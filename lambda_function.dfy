/**
 * The blog's request handler (`exports.lambda_handler`): OPTIONS answers the CORS
 * preflight, POST builds a post from the request body and writes it with `put`,
 * and every other method scans the table and answers with the posts newest first.
 * Anything thrown on the way is answered with status 500 and the error's message.
 */
module LambdaFunction {
  import opened Wrappers
  import opened JsRuntime
  import opened BlogTable

  /** The message of a thrown SyntaxError, which is never empty. */
  type SyntaxMessage = s: string | s != "" witness "Unexpected end of JSON input"

  /** What JSON.parse made of the request body: the SyntaxError's message, or the parsed value. */
  datatype Body = Malformed(syntaxError: SyntaxMessage) | WellFormed(value: Json)

  datatype Event = Event(httpMethod: string, body: Body)

  datatype Header = Header(name: string, value: string)

  /** The headers every response carries. */
  const CorsHeaders: seq<Header> := [
    Header("Access-Control-Allow-Origin", "*"),
    Header("Access-Control-Allow-Methods", "GET,POST,OPTIONS"),
    Header("Access-Control-Allow-Headers", "Content-Type"),
    Header("Content-Type", "application/json")
  ]

  /** The JSON object a response body holds, as a structured value. */
  datatype Payload =
    | Acknowledged(message: string)
    | Created(success: bool, post: Post)
    | Listed(success: bool, posts: seq<Post>)
    | Failed(success: bool, error: string)

  datatype Response = Response(statusCode: int, headers: seq<Header>, body: Payload)

  function PreflightResponse(): Response {
    Response(200, CorsHeaders, Acknowledged("OK"))
  }

  function CreatedResponse(item: Post): Response {
    Response(201, CorsHeaders, Created(true, item))
  }

  function ListedResponse(posts: seq<Post>): Response {
    Response(200, CorsHeaders, Listed(true, posts))
  }

  function ErrorResponse(message: string): Response {
    Response(500, CorsHeaders, Failed(false, message))
  }

  /**
   * The `||` default rule for one field: the body's member `key` when that is
   * truthy, `fallback` otherwise.
   */
  predicate DefaultRule(body: Json, key: string, field: Json, fallback: Json) {
    && (Truthy(Member(body, key)) ==> Some(field) == Member(body, key))
    && (!Truthy(Member(body, key)) ==> field == fallback)
  }

  /**
   * Parsing the body and building the item to write. `idClock` is the reading of
   * Date.now() that becomes the PostID, `dateClock` the later reading that becomes
   * dateCreated. Reading `title` from a null body throws before anything else.
   */
  function NewItem(body: Body, idClock: int, dateClock: int): (r: Result<Post, string>)
    ensures r.Success? <==> body.WellFormed? && body.value != JNull
    ensures body.Malformed? ==> r == Failure(body.syntaxError)
    ensures body == WellFormed(JNull) ==> r == Failure(NullReadMessage("title"))
    ensures r.Success? ==>
      && DefaultRule(body.value, "title", r.value.title, JString(""))
      && DefaultRule(body.value, "content", r.value.content, JString(""))
      && DefaultRule(body.value, "author", r.value.author, JString("Anonymous"))
      && Truthy(Some(r.value.author))
      && r.value.dateCreated == dateClock
      && r.value.comments == []
  {
    match body
    case Malformed(e) => Failure(e)
    case WellFormed(v) =>
      var title :- GetProperty(v, "title");
      var content := GetProperty(v, "content").value;
      var author := GetProperty(v, "author").value;
      Success(Post(
        NumberToString(idClock),
        Or(title, JString("")),
        Or(content, JString("")),
        Or(author, JString("Anonymous")),
        dateClock,
        []))
  }

  /** The PostID of a built item reads back as the first clock reading. */
  lemma PostIdEncodesClock(body: Body, idClock: int, dateClock: int)
    requires NewItem(body, idClock, dateClock).Success?
    ensures var id := NewItem(body, idClock, dateClock).value.postId;
      id != "" && ParseInteger(id) == Some(idClock)
  {
    NumberToStringRoundTrip(idClock);
  }

  /** Items built at different first clock readings have different PostIDs. */
  lemma PostIdsDiffer(b1: Body, id1: int, d1: int, b2: Body, id2: int, d2: int)
    requires NewItem(b1, id1, d1).Success? && NewItem(b2, id2, d2).Success?
    requires id1 != id2
    ensures NewItem(b1, id1, d1).value.postId != NewItem(b2, id2, d2).value.postId
  {
    NumberToStringInjective(id1, id2);
  }

  /** A body that supplies all three fields as non-empty strings keeps them. */
  lemma SuppliedStringsKept(title: string, content: string, author: string, idClock: int, dateClock: int)
    requires title != "" && content != "" && author != ""
    ensures var body := JObject(map["title" := JString(title), "content" := JString(content), "author" := JString(author)]);
      var r := NewItem(WellFormed(body), idClock, dateClock);
      && r.Success?
      && r.value.title == JString(title)
      && r.value.content == JString(content)
      && r.value.author == JString(author)
  {
  }

  /** The empty object `{}` gets the defaults "", "" and "Anonymous". */
  lemma EmptyObjectGetsDefaults(idClock: int, dateClock: int)
    ensures var r := NewItem(WellFormed(JObject(map[])), idClock, dateClock);
      && r.Success?
      && r.value.title == JString("")
      && r.value.content == JString("")
      && r.value.author == JString("Anonymous")
  {
  }

  /** An empty-string author is falsy, so it too becomes "Anonymous". */
  lemma EmptyAuthorBecomesAnonymous(title: Json, content: Json, idClock: int, dateClock: int)
    ensures var body := JObject(map["title" := title, "content" := content, "author" := JString("")]);
      var r := NewItem(WellFormed(body), idClock, dateClock);
      r.Success? && r.value.author == JString("Anonymous")
  {
  }

  /** Posts ordered by non-increasing `dateCreated`, as the comparator `b - a` sorts them. */
  predicate NewestFirst(posts: seq<Post>) {
    forall i, j :: 0 <= i < j < |posts| ==> posts[i].dateCreated >= posts[j].dateCreated
  }

  method SwapPosts(a: array<Post>, i: int, j: int)
    requires 0 <= i < a.Length && 0 <= j < a.Length
    modifies a
    ensures a[i] == old(a[j]) && a[j] == old(a[i])
    ensures forall k :: 0 <= k < a.Length && k != i && k != j ==> a[k] == old(a[k])
    ensures multiset(a[..]) == multiset(old(a[..]))
  {
    a[i], a[j] := a[j], a[i];
  }

  /**
   * The in-place `Items.sort((a, b) => b.dateCreated - a.dateCreated)`. The order
   * among posts with equal timestamps is not promised.
   */
  method SortNewestFirst(a: array<Post>)
    modifies a
    ensures NewestFirst(a[..])
    ensures multiset(a[..]) == multiset(old(a[..]))
  {
    var i := 0;
    while i < a.Length
      invariant 0 <= i <= a.Length
      invariant NewestFirst(a[..i])
      invariant multiset(a[..]) == multiset(old(a[..]))
    {
      var j := i;
      while j > 0 && a[j - 1].dateCreated < a[j].dateCreated
        invariant 0 <= j <= i
        invariant forall p, q :: 0 <= p < q <= i && p != j && q != j ==> a[p].dateCreated >= a[q].dateCreated
        invariant forall q :: j < q <= i ==> a[j].dateCreated > a[q].dateCreated
        invariant multiset(a[..]) == multiset(old(a[..]))
      {
        SwapPosts(a, j - 1, j);
        j := j - 1;
      }
      i := i + 1;
    }
  }

  /**
   * What handling `event` against a table holding `before` may answer and leave
   * behind: the handler's specification. `fault` is the error the one store call
   * of the request throws, if it fails.
   */
  ghost predicate Handled(
    before: map<string, Post>, event: Event, idClock: int, dateClock: int,
    fault: Option<string>, response: Response, after: map<string, Post>)
  {
    if event.httpMethod == "OPTIONS" then
      response == PreflightResponse() && after == before
    else if event.httpMethod == "POST" then
      match NewItem(event.body, idClock, dateClock)
      case Failure(e) => response == ErrorResponse(e) && after == before
      case Success(item) =>
        if fault.Some? then response == ErrorResponse(fault.value) && after == before
        else response == CreatedResponse(item) && after == before[item.postId := item]
    else
      && after == before
      && if fault.Some? then response == ErrorResponse(fault.value)
         else
           && response.body.Listed?
           && response == ListedResponse(response.body.posts)
           && IsListing(response.body.posts, before)
           && NewestFirst(response.body.posts)
  }

  method LambdaHandler(db: Table, event: Event, idClock: int, dateClock: int, fault: Option<string>)
    returns (response: Response)
    requires db.Valid()
    modifies db
    ensures db.Valid()
    ensures Handled(old(db.items), event, idClock, dateClock, fault, response, db.items)
  {
    if event.httpMethod == "OPTIONS" {
      return PreflightResponse();
    }
    if event.httpMethod == "POST" {
      var built := NewItem(event.body, idClock, dateClock);
      if built.Failure? {
        return ErrorResponse(built.error);
      }
      var item := built.value;
      var err := db.Put(item, fault);
      if err.Some? {
        return ErrorResponse(err.value);
      }
      return CreatedResponse(item);
    }
    var scanned := db.Scan(fault);
    if scanned.Failure? {
      return ErrorResponse(scanned.error);
    }
    var found := scanned.value;
    var items := new Post[|found|](i requires 0 <= i < |found| => found[i]);
    assert items[..] == found;
    SortNewestFirst(items);
    ListingPermuted(found, items[..], db.items);
    return ListedResponse(items[..]);
  }

  /** OPTIONS answers 200 with {message: "OK"} whatever the body and the store, and touches nothing. */
  lemma PreflightAcknowledges(
    before: map<string, Post>, event: Event, idClock: int, dateClock: int,
    fault: Option<string>, response: Response, after: map<string, Post>)
    requires event.httpMethod == "OPTIONS"
    requires Handled(before, event, idClock, dateClock, fault, response, after)
    ensures response.statusCode == 200 && response.body == Acknowledged("OK")
    ensures after == before
  {
  }

  /** Every answer, 200, 201 or 500, carries the same four headers. */
  lemma FixedHeaders(
    before: map<string, Post>, event: Event, idClock: int, dateClock: int,
    fault: Option<string>, response: Response, after: map<string, Post>)
    requires Handled(before, event, idClock, dateClock, fault, response, after)
    ensures response.headers == CorsHeaders
    ensures response.statusCode in {200, 201, 500}
  {
  }

  /** A 500 answer reports the thrown message with success false, and the table is as it was. */
  lemma FailureLeavesTableUnchanged(
    before: map<string, Post>, event: Event, idClock: int, dateClock: int,
    fault: Option<string>, response: Response, after: map<string, Post>)
    requires Handled(before, event, idClock, dateClock, fault, response, after)
    requires response.statusCode == 500
    ensures after == before
    ensures response.body.Failed? && !response.body.success
    ensures fault == Some(response.body.error)
      || (event.httpMethod == "POST" && NewItem(event.body, idClock, dateClock) == Failure(response.body.error))
  {
  }

  /** A malformed or null body fails with the thrown message and nothing is written. */
  lemma BadBodyIsNotWritten(
    before: map<string, Post>, event: Event, idClock: int, dateClock: int,
    fault: Option<string>, response: Response, after: map<string, Post>)
    requires event.httpMethod == "POST"
    requires event.body.Malformed? || event.body == WellFormed(JNull)
    requires Handled(before, event, idClock, dateClock, fault, response, after)
    ensures response.statusCode == 500 && response.body.Failed? && !response.body.success
    ensures event.body.Malformed? ==> response.body.error == event.body.syntaxError
    ensures !event.body.Malformed? ==> response.body.error == NullReadMessage("title")
    ensures response.body.error != ""
    ensures after == before
  {
  }

  /** The table changes only with a 201, which reports exactly the item put under its id. */
  lemma OnlyCreationWrites(
    before: map<string, Post>, event: Event, idClock: int, dateClock: int,
    fault: Option<string>, response: Response, after: map<string, Post>)
    requires Handled(before, event, idClock, dateClock, fault, response, after)
    requires after != before || response.statusCode == 201
    ensures response.statusCode == 201 && event.httpMethod == "POST" && fault.None?
    ensures response.body.Created? && response.body.success
    ensures NewItem(event.body, idClock, dateClock) == Success(response.body.post)
    ensures after == before[response.body.post.postId := response.body.post]
  {
  }

  /**
   * Any method other than OPTIONS and POST reads: 200 with every stored post
   * once, newest first, or 500 with the store's error; the table is unchanged.
   */
  lemma ReadPathListsTable(
    before: map<string, Post>, event: Event, idClock: int, dateClock: int,
    fault: Option<string>, response: Response, after: map<string, Post>)
    requires event.httpMethod != "OPTIONS" && event.httpMethod != "POST"
    requires Handled(before, event, idClock, dateClock, fault, response, after)
    ensures after == before
    ensures fault.Some? ==> response == ErrorResponse(fault.value)
    ensures fault.None? ==>
      && response.statusCode == 200
      && response.body.Listed? && response.body.success
      && IsListing(response.body.posts, before)
      && NewestFirst(response.body.posts)
  {
  }

  /** A successful POST of a non-null body stores the built item, and only that. */
  lemma SuccessfulPostStoresItem(
    before: map<string, Post>, event: Event, idClock: int, dateClock: int,
    response: Response, after: map<string, Post>)
    requires event.httpMethod == "POST" && event.body.WellFormed? && event.body.value != JNull
    requires Handled(before, event, idClock, dateClock, None, response, after)
    ensures response.statusCode == 201 && response.body.Created? && response.body.success
    ensures response.body.post == NewItem(event.body, idClock, dateClock).value
    ensures response.body.post.postId in after && after[response.body.post.postId] == response.body.post
    ensures forall k :: k != response.body.post.postId ==> (k in after <==> k in before)
    ensures forall k :: k in before && k != response.body.post.postId ==> after[k] == before[k]
  {
  }

  /**
   * Two successful POSTs into an empty table at different first clock readings,
   * the second created later, then a read: the read lists the second post, then
   * the first.
   */
  lemma TwoPostsThenReadNewestFirst(
    first: Event, id1: int, d1: int, r1: Response, t1: map<string, Post>,
    second: Event, id2: int, d2: int, r2: Response, t2: map<string, Post>,
    read: Event, id3: int, d3: int, r3: Response, t3: map<string, Post>)
    requires first.httpMethod == "POST" && first.body.WellFormed? && first.body.value != JNull
    requires second.httpMethod == "POST" && second.body.WellFormed? && second.body.value != JNull
    requires read.httpMethod == "GET"
    requires id1 != id2 && d1 < d2
    requires Handled(map[], first, id1, d1, None, r1, t1)
    requires Handled(t1, second, id2, d2, None, r2, t2)
    requires Handled(t2, read, id3, d3, None, r3, t3)
    ensures r1.body.Created? && r2.body.Created?
    ensures r3.statusCode == 200 && r3.body.Listed?
    ensures r3.body.posts == [r2.body.post, r1.body.post]
  {
    var p1 := NewItem(first.body, id1, d1).value;
    var p2 := NewItem(second.body, id2, d2).value;
    PostIdsDiffer(first.body, id1, d1, second.body, id2, d2);
    assert t2 == map[p1.postId := p1, p2.postId := p2];
    var posts := r3.body.posts;
    assert IsListing(posts, t2);
    assert p1.postId in t2 && p2.postId in t2;
    assert |t2| == 2 by {
      assert t2.Keys == {p1.postId, p2.postId};
    }
    var i1 :| 0 <= i1 < |posts| && posts[i1].postId == p1.postId;
    var i2 :| 0 <= i2 < |posts| && posts[i2].postId == p2.postId;
    assert posts[i1] == p1 && posts[i2] == p2;
    assert i2 < i1;
  }

  /** A POST request carrying `body`. */
  function PostOf(body: Json): Event {
    Event("POST", WellFormed(body))
  }

  /**
   * A run of POSTs from an empty table: request `i` carries `bodies[i]`, is
   * handled at clock readings `ids[i]` and `dates[i]` with a working store, answers
   * `responses[i]` and turns `tables[i]` into `tables[i + 1]`.
   */
  ghost predicate PostRun(
    bodies: seq<Json>, ids: seq<int>, dates: seq<int>,
    responses: seq<Response>, tables: seq<map<string, Post>>)
  {
    && |ids| == |bodies| && |dates| == |bodies| && |responses| == |bodies|
    && |tables| == |bodies| + 1
    && tables[0] == map[]
    && forall i :: 0 <= i < |bodies| ==> StepHandled(bodies, ids, dates, responses, tables, i)
  }

  /** Request `i` of a run is handled as `Handled` says. */
  ghost predicate StepHandled(
    bodies: seq<Json>, ids: seq<int>, dates: seq<int>,
    responses: seq<Response>, tables: seq<map<string, Post>>, i: nat)
  {
    && i < |bodies| && i < |ids| && i < |dates| && i < |responses| && i + 1 < |tables|
    && Handled(tables[i], PostOf(bodies[i]), ids[i], dates[i], None, responses[i], tables[i + 1])
  }

  /** One step of a run: a POST of a non-null body with a working store puts the built item. */
  lemma PostStep(
    before: map<string, Post>, body: Json, id: int, date: int, response: Response, after: map<string, Post>)
    requires body != JNull
    requires Handled(before, PostOf(body), id, date, None, response, after)
    ensures response.body.Created?
    ensures response.body.post == NewItem(WellFormed(body), id, date).value
    ensures after == before[response.body.post.postId := response.body.post]
  {
  }

  /** `tables` results from putting `posts` one after the other into an empty table. */
  ghost predicate PutsInOrder(posts: seq<Post>, tables: seq<map<string, Post>>) {
    && |tables| == |posts| + 1
    && tables[0] == map[]
    && forall i :: 0 <= i < |posts| ==> PutStep(tables[i], posts[i], tables[i + 1])
  }

  /** `after` is `before` with `post` put under its PostID. */
  ghost predicate PutStep(before: map<string, Post>, post: Post, after: map<string, Post>) {
    after == before[post.postId := post]
  }

  /** The PostIDs of `posts`. */
  ghost function Ids(posts: seq<Post>): set<string> {
    if posts == [] then {} else Ids(posts[..|posts| - 1]) + {posts[|posts| - 1].postId}
  }

  /** Every id in `Ids(posts)` is the PostID of some post in `posts`. */
  lemma {:induction false} IdsWitness(posts: seq<Post>, k: string)
    requires k in Ids(posts)
    ensures exists i :: 0 <= i < |posts| && posts[i].postId == k
  {
    var m := |posts| - 1;
    if posts[m].postId != k {
      IdsWitness(posts[..m], k);
      var i :| 0 <= i < m && posts[..m][i].postId == k;
      assert posts[i].postId == k;
    }
  }

  /** An id that no post in `posts` carries is not in `Ids(posts)`. */
  lemma {:induction false} IdsExclude(posts: seq<Post>, k: string)
    requires forall i :: 0 <= i < |posts| ==> posts[i].postId != k
    ensures k !in Ids(posts)
  {
    if posts != [] {
      var m := |posts| - 1;
      forall i | 0 <= i < m
        ensures posts[..m][i].postId != k
      {
        assert posts[..m][i] == posts[i];
      }
      IdsExclude(posts[..m], k);
    }
  }

  /** Putting posts with pairwise distinct PostIDs leaves exactly those posts, each under its id. */
  lemma {:induction false} DistinctPutsFillTable(posts: seq<Post>, tables: seq<map<string, Post>>, n: nat)
    requires PutsInOrder(posts, tables)
    requires forall i, j :: 0 <= i < j < |posts| ==> posts[i].postId != posts[j].postId
    requires n <= |posts|
    ensures |tables[n]| == n
    ensures tables[n].Keys == Ids(posts[..n])
    ensures forall i :: 0 <= i < n ==> posts[i].postId in tables[n] && tables[n][posts[i].postId] == posts[i]
  {
    if n > 0 {
      var m := n - 1;
      DistinctPutsFillTable(posts, tables, m);
      var p := posts[m];
      assert PutStep(tables[m], p, tables[n]);
      assert posts[..n][..m] == posts[..m];
      forall i | 0 <= i < m
        ensures posts[..m][i].postId != p.postId
      {
        assert posts[..m][i] == posts[i];
      }
      IdsExclude(posts[..m], p.postId);
      assert tables[n].Keys == tables[m].Keys + {p.postId};
    }
  }

  /**
   * Each POST of a run with non-null bodies answers 201 and puts the item it
   * reports; with pairwise distinct first readings those items have pairwise
   * distinct PostIDs.
   */
  lemma PostRunPuts(
    bodies: seq<Json>, ids: seq<int>, dates: seq<int>,
    responses: seq<Response>, tables: seq<map<string, Post>>)
    requires PostRun(bodies, ids, dates, responses, tables)
    requires forall i :: 0 <= i < |bodies| ==> bodies[i] != JNull
    requires forall i, j :: 0 <= i < j < |ids| ==> ids[i] != ids[j]
    ensures forall i :: 0 <= i < |bodies| ==>
      responses[i].body.Created? && PutStep(tables[i], responses[i].body.post, tables[i + 1])
    ensures forall i, j :: 0 <= i < j < |bodies| ==>
      responses[i].body.post.postId != responses[j].body.post.postId
  {
    forall i | 0 <= i < |bodies|
      ensures responses[i].body.Created?
      ensures responses[i].body.post == NewItem(WellFormed(bodies[i]), ids[i], dates[i]).value
      ensures PutStep(tables[i], responses[i].body.post, tables[i + 1])
    {
      assert StepHandled(bodies, ids, dates, responses, tables, i);
      PostStep(tables[i], bodies[i], ids[i], dates[i], responses[i], tables[i + 1]);
    }
    forall i, j | 0 <= i < j < |bodies|
      ensures responses[i].body.post.postId != responses[j].body.post.postId
    {
      PostIdsDiffer(WellFormed(bodies[i]), ids[i], dates[i], WellFormed(bodies[j]), ids[j], dates[j]);
    }
  }

  /**
   * After a run of POSTs with non-null bodies and pairwise distinct first
   * readings, each answer is a 201 and the table holds exactly the posts
   * created, each under its own PostID.
   */
  lemma PostRunFillsTable(
    bodies: seq<Json>, ids: seq<int>, dates: seq<int>,
    responses: seq<Response>, tables: seq<map<string, Post>>)
    requires PostRun(bodies, ids, dates, responses, tables)
    requires forall i :: 0 <= i < |bodies| ==> bodies[i] != JNull
    requires forall i, j :: 0 <= i < j < |ids| ==> ids[i] != ids[j]
    ensures forall i :: 0 <= i < |bodies| ==> responses[i].body.Created?
    ensures var last := tables[|bodies|];
      && |last| == |bodies|
      && (forall i :: 0 <= i < |bodies| ==>
            responses[i].body.post.postId in last && last[responses[i].body.post.postId] == responses[i].body.post)
      && (forall k :: k in last ==> exists i :: 0 <= i < |bodies| && responses[i].body.post.postId == k)
  {
    PostRunPuts(bodies, ids, dates, responses, tables);
    var posts := seq(|bodies|, i requires 0 <= i < |bodies| => responses[i].body.post);
    DistinctPutsFillTable(posts, tables, |bodies|);
    var last := tables[|bodies|];
    assert posts[..|bodies|] == posts;
    forall i | 0 <= i < |bodies|
      ensures responses[i].body.post.postId in last && last[responses[i].body.post.postId] == responses[i].body.post
    {
      assert posts[i] == responses[i].body.post;
    }
    forall k | k in last
      ensures exists i :: 0 <= i < |bodies| && responses[i].body.post.postId == k
    {
      IdsWitness(posts, k);
      var i :| 0 <= i < |posts| && posts[i].postId == k;
    }
  }

  /**
   * A read right after a run of POSTs with non-null bodies and pairwise distinct
   * first readings lists exactly the posts created, each as stored, newest first.
   */
  lemma PostsThenReadListsThem(
    bodies: seq<Json>, ids: seq<int>, dates: seq<int>,
    responses: seq<Response>, tables: seq<map<string, Post>>,
    read: Event, id: int, date: int, response: Response, after: map<string, Post>)
    requires PostRun(bodies, ids, dates, responses, tables)
    requires forall i :: 0 <= i < |bodies| ==> bodies[i] != JNull
    requires forall i, j :: 0 <= i < j < |ids| ==> ids[i] != ids[j]
    requires read.httpMethod == "GET"
    requires Handled(tables[|bodies|], read, id, date, None, response, after)
    ensures after == tables[|bodies|]
    ensures response.statusCode == 200 && response.body.Listed? && response.body.success
    ensures |response.body.posts| == |bodies|
    ensures forall i :: 0 <= i < |bodies| ==> responses[i].body.Created? && responses[i].body.post in response.body.posts
    ensures forall q :: q in response.body.posts ==>
      exists i :: 0 <= i < |bodies| && responses[i].body.Created? && responses[i].body.post == q
    ensures NewestFirst(response.body.posts)
  {
    var n := |bodies|;
    PostRunFillsTable(bodies, ids, dates, responses, tables);
    var posts := response.body.posts;
    assert IsListing(posts, tables[n]);
    forall i | 0 <= i < n
      ensures responses[i].body.post in posts
    {
      var p := responses[i].body.post;
      var j :| 0 <= j < |posts| && posts[j].postId == p.postId;
      assert posts[j] == tables[n][p.postId];
    }
    forall q | q in posts
      ensures exists i :: 0 <= i < n && responses[i].body.Created? && responses[i].body.post == q
    {
      var j :| 0 <= j < |posts| && posts[j] == q;
      var i :| 0 <= i < n && responses[i].body.post.postId == q.postId;
      assert tables[n][q.postId] == q;
    }
  }

  /**
   * Two POSTs into an empty table at the same first reading get the same PostID:
   * the second put replaces the first post, so the table holds one post.
   */
  lemma SameMillisecondOverwrites(
    b1: Json, b2: Json, id: int, d1: int, d2: int,
    r1: Response, t1: map<string, Post>, r2: Response, t2: map<string, Post>)
    requires b1 != JNull && b2 != JNull
    requires Handled(map[], PostOf(b1), id, d1, None, r1, t1)
    requires Handled(t1, PostOf(b2), id, d2, None, r2, t2)
    ensures r1.statusCode == 201 && r2.statusCode == 201
    ensures r1.body.post.postId == r2.body.post.postId
    ensures |t2| == 1 && t2 == map[r2.body.post.postId := r2.body.post]
  {
    assert t2.Keys == {r2.body.post.postId};
  }
}
