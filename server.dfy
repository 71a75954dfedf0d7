/** The per-connection session protocol of SERVER/bigserver.py: the
    authentication handshake of `handleClientRequest`, its command loop,
    and the two command handlers `listImages` and `createInstance`.

    The websocket is a `Channel` whose incoming frames are a finite
    sequence fixed when the peer connects (running out of them is the peer
    closing) and whose outgoing frames accumulate in `sent`. The audit log
    is an `AuditLog` whose entries accumulate in `entries`. The cloud
    services are parameters: `authenticate` stands for
    `authenticateClient`, and `facade(k)` is what the image, flavour and
    network listings return while the k-th command frame (counting from 0)
    is served. */
module Server {
  import opened Seqs
  import opened Text

  // Frames the server sends (bigserver.py:76, 130, 132, 148, 154-155, 164-165).
  const Prompt := "AUTH SEQUENCE INITIATED BY SERVER . . . "
  const Success := "success"
  const Error := "error"
  const Completed := "AUTH SEQUENCE COMPLETED BY CLIENT . . . "
  const Failed := "AUTH SEQUENCE FAILED BY CLIENT . . . "
  const NoImages := "NO IMAGES AVAILABLE CURRENTLY. CONTACT  ADMIN"
  const NoFlavors := "NO FLAVORS AVAILABLE CURRENTLY. CONTACT ADMIN."
  const NoNetworks := "NO NETWORKS AVAILABLE CURRENTLY. CONTACT ADMIN."

  // The two recognised command frames (bigserver.py:159, 161).
  const ListImagesCommand := "lsimage"
  const CreateInstanceCommand := "createInstance"

  /** `auth_params['auth_url']` (bigserver.py:32). */
  const AuthUrl := "http://localhost/identity"

  datatype Option<T> = None | Some(value: T)

  /** An image, flavour or network as the listings return it. */
  datatype Resource = Resource(id: string, name: string)

  /** What the image, flavour and network listings return at one moment. */
  datatype Catalog = Catalog(images: seq<Resource>, flavors: seq<Resource>, networks: seq<Resource>)

  datatype Credentials = Credentials(username: string, password: string, projectId: string)

  /** How `handleClientRequest` ends: the peer closed the connection (the
      caught `ConnectionClosed`), the handler returned after a rejected
      login, or the credential frame did not unpack into three fields (a
      `ValueError` the handler does not catch). */
  datatype Ending = PeerClosed | LoginRejected | UnpackError

  /** One observable step of a session: a frame sent, a frame read, a
      read that found the peer closed, or a log entry written. */
  datatype Event = Out(frame: string) | In(frame: string) | Closed | Logged(message: string)

  /** Everything one session does: the frames sent, the log entries
      written, how many frames were read, and how it ended. */
  datatype Transcript = Transcript(sent: seq<string>, log: seq<string>, received: nat, ending: Ending)

  type Authenticator = (string, string, string, string) -> bool

  // ---------------------------------------------------------------------
  // Rendering.

  /** `f"{r.id} : {r.name}"` (bigserver.py:78, 109, 114). */
  function Entry(r: Resource): string
  {
    r.id + " : " + r.name
  }

  function Entries(rs: seq<Resource>): (lines: seq<string>)
    ensures |lines| == |rs|
    ensures forall k :: 0 <= k < |rs| ==> lines[k] == Entry(rs[k])
  {
    seq(|rs|, k requires 0 <= k < |rs| => Entry(rs[k]))
  }

  /** `"\n".join(...)` of the entries, in listing order. */
  function Listing(rs: seq<Resource>): string
  {
    Join(Entries(rs), '\n')
  }

  /** The listing frame is exactly one line per resource, in listing order,
      when no id or name contains a line break. */
  lemma ListingLines(rs: seq<Resource>)
    requires rs != []
    requires forall k :: 0 <= k < |rs| ==> '\n' !in rs[k].id && '\n' !in rs[k].name
    ensures Split(Listing(rs), '\n') == Entries(rs)
  {
    var lines := Entries(rs);
    forall k | 0 <= k < |lines| ensures '\n' !in lines[k] {
      assert lines[k] == rs[k].id + " : " + rs[k].name;
    }
    SplitJoin(lines, '\n');
  }

  /** Without that condition the listing frame can hold more lines than
      there are resources: one image whose name holds a line break gives a
      frame of two lines. */
  lemma ListingExtraLine()
    ensures var rs := [Resource("id1", "a\nb")];
      |Split(Listing(rs), '\n')| == 2 > |rs|
  {
    var rs := [Resource("id1", "a\nb")];
    var line := Entry(rs[0]);
    assert Entries(rs) == [line];
    assert line == "id1 : a" + "\n" + "b";
    OccAppend("id1 : a" + "\n", "b", '\n');
    OccAppend("id1 : a", "\n", '\n');
    assert '\n' !in "id1 : a" && '\n' !in "b";
  }

  // ---------------------------------------------------------------------
  // Command replies.

  /** The frames `listImages` sends (bigserver.py:70-79): the sentinel when
      there are no images, otherwise one listing frame. */
  function ImagesReply(images: seq<Resource>): (frames: seq<string>)
    ensures |frames| == 1
    ensures images == [] ==> frames[0] == NoImages
    ensures images != [] ==> frames[0] == Listing(images)
  {
    if images == [] then [NoImages] else [Listing(images)]
  }

  /** The frames `createInstance` sends (bigserver.py:101-132): both
      listings, flavours first, when both are non-empty; otherwise only the
      message for each empty list, the flavour message first. */
  function CreateInstanceReply(flavors: seq<Resource>, networks: seq<Resource>): (frames: seq<string>)
    ensures flavors != [] && networks != [] ==> frames == [Listing(flavors), Listing(networks)]
    ensures flavors == [] || networks == [] ==>
      && |frames| == (if flavors == [] then 1 else 0) + (if networks == [] then 1 else 0)
      && (NoFlavors in frames <==> flavors == [])
      && (NoNetworks in frames <==> networks == [])
      && (flavors == [] ==> frames[0] == NoFlavors)
  {
    if flavors != [] && networks != [] then
      [Listing(flavors), Listing(networks)]
    else
      (if flavors == [] then [NoFlavors] else []) + (if networks == [] then [NoNetworks] else [])
  }

  /** One turn of the command loop (bigserver.py:158-162); any frame other
      than the two commands gets no reply. */
  function Dispatch(request: string, catalog: Catalog): seq<string>
  {
    if request == ListImagesCommand then ImagesReply(catalog.images)
    else if request == CreateInstanceCommand then CreateInstanceReply(catalog.flavors, catalog.networks)
    else []
  }

  /** The frames sent while serving the command frames `requests`, the k-th
      of them against `facade(k)`. */
  function Serve(requests: seq<string>, facade: nat -> Catalog): seq<string>
    decreases |requests|
  {
    if requests == [] then []
    else
      var n := |requests| - 1;
      Serve(requests[..n], facade) + Dispatch(requests[n], facade(n))
  }

  lemma ServeSnoc(requests: seq<string>, request: string, facade: nat -> Catalog)
    ensures Serve(requests + [request], facade)
      == Serve(requests, facade) + Dispatch(request, facade(|requests|))
  {
    assert (requests + [request])[..|requests|] == requests;
  }

  lemma ServeStep(requests: seq<string>, turn: nat, facade: nat -> Catalog)
    requires turn < |requests|
    ensures Serve(requests[..turn + 1], facade)
      == Serve(requests[..turn], facade) + Dispatch(requests[turn], facade(turn))
  {
    TakeSnoc(requests, turn);
    ServeSnoc(requests[..turn], requests[turn], facade);
  }

  /** More command frames only add outbound frames at the end: what was
      sent while serving `a` is a prefix of what serving `a + b` sends. */
  lemma {:induction false} ServePrefix(a: seq<string>, b: seq<string>, facade: nat -> Catalog)
    ensures Serve(a, facade) <= Serve(a + b, facade)
    decreases |b|
  {
    if b == [] {
      assert a + b == a;
    } else {
      var b', x := b[..|b| - 1], b[|b| - 1];
      assert a + b == (a + b') + [x] by { DropLast(b); AppendAssoc(a, b', [x]); }
      ServePrefix(a, b', facade);
      ServeSnoc(a + b', x, facade);
      PrefixAppend(Serve(a, facade), Serve(a + b', facade), Dispatch(x, facade(|a + b'|)));
    }
  }

  /** A frame that is neither command gets no reply (bigserver.py:159-162). */
  lemma UnknownCommandIgnored(requests: seq<string>, request: string, facade: nat -> Catalog)
    requires request != ListImagesCommand && request != CreateInstanceCommand
    ensures Serve(requests + [request], facade) == Serve(requests, facade)
  {
    ServeSnoc(requests, request, facade);
  }

  /** A session of unknown frames only sends nothing. */
  lemma {:induction false} ServeUnknown(requests: seq<string>, facade: nat -> Catalog)
    requires forall k :: 0 <= k < |requests| ==>
      requests[k] != ListImagesCommand && requests[k] != CreateInstanceCommand
    ensures Serve(requests, facade) == []
    decreases |requests|
  {
    if requests != [] {
      var init := requests[..|requests| - 1];
      assert forall k :: 0 <= k < |init| ==> init[k] == requests[k];
      ServeUnknown(init, facade);
    }
  }

  /** Two consecutive `lsimage` frames against an unchanged image list get
      the same one-frame reply, one after the other (bigserver.py:159-160). */
  lemma RepeatedListing(requests: seq<string>, k: nat, facade: nat -> Catalog)
    requires k + 1 < |requests|
    requires requests[k] == ListImagesCommand && requests[k + 1] == ListImagesCommand
    requires facade(k).images == facade(k + 1).images
    ensures var reply := ImagesReply(facade(k).images);
      && |reply| == 1
      && Serve(requests[..k + 2], facade) == Serve(requests[..k], facade) + reply + reply
  {
    ServeStep(requests, k, facade);
    ServeStep(requests, k + 1, facade);
  }

  // ---------------------------------------------------------------------
  // Event traces.

  /** The events of sending `frames`, in order. */
  function Outs(frames: seq<string>): (events: seq<Event>)
    ensures |events| == |frames|
    ensures forall k :: 0 <= k < |frames| ==> events[k] == Out(frames[k])
  {
    seq(|frames|, k requires 0 <= k < |frames| => Out(frames[k]))
  }

  /** The frames sent in a trace, in order. */
  function SentBy(events: seq<Event>): seq<string>
    decreases |events|
  {
    if events == [] then []
    else
      var e := events[|events| - 1];
      SentBy(events[..|events| - 1]) + (if e.Out? then [e.frame] else [])
  }

  /** The frames read in a trace, in order. */
  function ReadBy(events: seq<Event>): seq<string>
    decreases |events|
  {
    if events == [] then []
    else
      var e := events[|events| - 1];
      ReadBy(events[..|events| - 1]) + (if e.In? then [e.frame] else [])
  }

  /** The messages logged in a trace, in order. */
  function LoggedBy(events: seq<Event>): seq<string>
    decreases |events|
  {
    if events == [] then []
    else
      var e := events[|events| - 1];
      LoggedBy(events[..|events| - 1]) + (if e.Logged? then [e.message] else [])
  }

  /** Each projection of a trace distributes over concatenation. */
  lemma {:induction false} ProjectAppend(a: seq<Event>, b: seq<Event>)
    ensures SentBy(a + b) == SentBy(a) + SentBy(b)
    ensures ReadBy(a + b) == ReadBy(a) + ReadBy(b)
    ensures LoggedBy(a + b) == LoggedBy(a) + LoggedBy(b)
    decreases |b|
  {
    if b == [] {
      assert a + b == a;
    } else {
      var b', e := b[..|b| - 1], b[|b| - 1];
      assert (a + b)[..|a + b| - 1] == a + b';
      ProjectAppend(a, b');
    }
  }

  lemma ProjectSnoc(events: seq<Event>, e: Event)
    ensures SentBy(events + [e]) == SentBy(events) + (if e.Out? then [e.frame] else [])
    ensures ReadBy(events + [e]) == ReadBy(events) + (if e.In? then [e.frame] else [])
    ensures LoggedBy(events + [e]) == LoggedBy(events) + (if e.Logged? then [e.message] else [])
  {
    assert (events + [e])[..|events|] == events;
  }

  /** Sending frames is seen as exactly those frames going out. */
  lemma {:induction false} ProjectOuts(frames: seq<string>)
    ensures SentBy(Outs(frames)) == frames
    ensures ReadBy(Outs(frames)) == [] && LoggedBy(Outs(frames)) == []
    decreases |frames|
  {
    if frames != [] {
      var init := frames[..|frames| - 1];
      assert Outs(frames)[..|frames| - 1] == Outs(init);
      ProjectOuts(init);
    }
  }

  /** The trace of the command loop serving `requests`: each turn reads its
      frame and sends that frame's reply before the next frame is read. */
  function ServeEvents(requests: seq<string>, facade: nat -> Catalog): seq<Event>
    decreases |requests|
  {
    if requests == [] then []
    else
      var n := |requests| - 1;
      ServeEvents(requests[..n], facade) + ([In(requests[n])] + Outs(Dispatch(requests[n], facade(n))))
  }

  lemma ServeEventsSnoc(requests: seq<string>, request: string, facade: nat -> Catalog)
    ensures ServeEvents(requests + [request], facade)
      == ServeEvents(requests, facade) + ([In(request)] + Outs(Dispatch(request, facade(|requests|))))
  {
    assert (requests + [request])[..|requests|] == requests;
  }

  /** The loop's trace sends exactly what `Serve` describes, reads exactly
      the command frames and logs nothing. */
  lemma {:induction false} ServeEventsProject(requests: seq<string>, facade: nat -> Catalog)
    ensures SentBy(ServeEvents(requests, facade)) == Serve(requests, facade)
    ensures ReadBy(ServeEvents(requests, facade)) == requests
    ensures LoggedBy(ServeEvents(requests, facade)) == []
    decreases |requests|
  {
    if requests != [] {
      var n := |requests| - 1;
      var init, turn := requests[..n], [In(requests[n])] + Outs(Dispatch(requests[n], facade(n)));
      ServeEventsProject(init, facade);
      ProjectAppend(ServeEvents(init, facade), turn);
      ProjectAppend([In(requests[n])], Outs(Dispatch(requests[n], facade(n))));
      ProjectOuts(Dispatch(requests[n], facade(n)));
      assert SentBy([In(requests[n])]) == [] && ReadBy([In(requests[n])]) == [requests[n]];
      DropLast(requests);
    }
  }

  /** More command frames only add events at the end of the loop's trace. */
  lemma {:induction false} ServeEventsPrefix(a: seq<string>, b: seq<string>, facade: nat -> Catalog)
    ensures ServeEvents(a, facade) <= ServeEvents(a + b, facade)
    decreases |b|
  {
    if b == [] {
      assert a + b == a;
    } else {
      var b', x := b[..|b| - 1], b[|b| - 1];
      assert a + b == (a + b') + [x] by { DropLast(b); AppendAssoc(a, b', [x]); }
      ServeEventsPrefix(a, b', facade);
      ServeEventsSnoc(a + b', x, facade);
      PrefixAppend(ServeEvents(a, facade), ServeEvents(a + b', facade),
                   [In(x)] + Outs(Dispatch(x, facade(|a + b'|))));
    }
  }

  /** One receive, process, send cycle per frame: the loop's trace starts
      with the trace of its first k + 1 turns, in which exactly the first
      k + 1 frames have been read and which ends with the read of the k-th
      frame followed by that frame's whole reply. */
  lemma TurnCycle(requests: seq<string>, turn: nat, facade: nat -> Catalog)
    requires turn < |requests|
    ensures var head := ServeEvents(requests[..turn + 1], facade);
      && head == ServeEvents(requests[..turn], facade)
                 + ([In(requests[turn])] + Outs(Dispatch(requests[turn], facade(turn))))
      && head <= ServeEvents(requests, facade)
      && ReadBy(head) == requests[..turn + 1]
  {
    var head := requests[..turn + 1];
    assert ServeEvents(head, facade)
        == ServeEvents(requests[..turn], facade) + ([In(requests[turn])] + Outs(Dispatch(requests[turn], facade(turn)))) by {
      ServeEventsStep(requests, turn, facade);
    }
    assert ServeEvents(head, facade) <= ServeEvents(requests, facade) by {
      TakeDrop(requests, turn + 1);
      ServeEventsPrefix(head, requests[turn + 1..], facade);
    }
    assert ReadBy(ServeEvents(head, facade)) == head by {
      ServeEventsProject(head, facade);
    }
  }

  lemma ServeEventsStep(requests: seq<string>, turn: nat, facade: nat -> Catalog)
    requires turn < |requests|
    ensures ServeEvents(requests[..turn + 1], facade)
      == ServeEvents(requests[..turn], facade) + ([In(requests[turn])] + Outs(Dispatch(requests[turn], facade(turn))))
  {
    TakeSnoc(requests, turn);
    ServeEventsSnoc(requests[..turn], requests[turn], facade);
  }

  // ---------------------------------------------------------------------
  // The handshake.

  /** `username, password, project_id = authInfo.split(",")`
      (bigserver.py:150): only exactly three fields unpack. */
  function ParseCredentials(frame: string): (c: Option<Credentials>)
    ensures c.Some? <==> Occ(frame, ',') == 2
  {
    var fields := Split(frame, ',');
    if |fields| == 3 then Some(Credentials(fields[0], fields[1], fields[2])) else None
  }

  /** A credential frame written as "<username>,<password>,<project id>"
      with no comma inside a field parses back to those fields. */
  lemma ParseCredentialsRoundTrip(c: Credentials)
    requires ',' !in c.username && ',' !in c.password && ',' !in c.projectId
    ensures ParseCredentials(c.username + "," + c.password + "," + c.projectId) == Some(c)
  {
    var parts := [c.username, c.password, c.projectId];
    assert Join(parts[..2], ',') == c.username + "," + c.password by {
      assert parts[..2][..1] == [c.username];
    }
    assert Join(parts, ',') == c.username + "," + c.password + "," + c.projectId;
    SplitJoin(parts, ',');
  }

  /** The fields of a parsed credential frame contain no comma, and
      re-joining them gives back the frame. */
  lemma ParseCredentialsFields(frame: string)
    requires ParseCredentials(frame).Some?
    ensures var c := ParseCredentials(frame).value;
      && ',' !in c.username && ',' !in c.password && ',' !in c.projectId
      && frame == c.username + "," + c.password + "," + c.projectId
  {
    var fields := Split(frame, ',');
    SplitPiecesFree(frame, ',', 0);
    SplitPiecesFree(frame, ',', 1);
    SplitPiecesFree(frame, ',', 2);
    JoinSplit(frame, ',');
    var init := fields[..2];
    assert init[..1] == [fields[0]];
    assert Join(init, ',') == fields[0] + [','] + fields[1];
    assert Join(fields, ',') == Join(init, ',') + [','] + fields[2];
  }

  function Address(ip: string, port: nat): string
  {
    ip + ":" + Decimal(port)
  }

  /** The log messages (bigserver.py:38, 156, 166); the timestamp the
      logging format adds is not modelled. */
  function ConnectionEntry(ip: string, port: nat): string { "CONNECTION FROM " + Address(ip, port) }
  function LoginSuccessEntry(ip: string, port: nat): string { "LOGIN SUCCESS FOR " + Address(ip, port) }
  function LoginFailedEntry(ip: string, port: nat): string { "LOGIN FAILED FOR " + Address(ip, port) }

  /** The three kinds of log entry never coincide, whatever the addresses:
      a connection, an accepted login and a rejected login are always told
      apart in the log. */
  lemma LogEntriesDistinct(ip: string, port: nat, ip': string, port': nat)
    ensures ConnectionEntry(ip, port) != LoginSuccessEntry(ip', port')
    ensures ConnectionEntry(ip, port) != LoginFailedEntry(ip', port')
    ensures LoginSuccessEntry(ip, port) != LoginFailedEntry(ip', port')
  {
    assert ConnectionEntry(ip, port)[0] == 'C' && LoginSuccessEntry(ip', port')[0] == 'L';
    assert LoginFailedEntry(ip', port')[0] == 'L';
    assert LoginSuccessEntry(ip, port)[6] == 'S' && LoginFailedEntry(ip', port')[6] == 'F';
  }

  /** Whether the credential frame unpacks and the identity service accepts it. */
  predicate Accepted(frame: string, authenticate: Authenticator)
  {
    match ParseCredentials(frame)
    case None => false
    case Some(c) => authenticate(c.username, c.password, c.projectId, AuthUrl)
  }

  /** The whole session `handleClientRequest` conducts with a peer that
      sends `frames` and then closes. */
  function Converse(ip: string, port: nat, frames: seq<string>, authenticate: Authenticator,
                    facade: nat -> Catalog): (t: Transcript)
    ensures t.received <= |frames|
  {
    var connected := [ConnectionEntry(ip, port)];
    if frames == [] then Transcript([Prompt], connected, 0, PeerClosed)
    else
      match ParseCredentials(frames[0])
      case None => Transcript([Prompt], connected, 1, UnpackError)
      case Some(c) =>
        if authenticate(c.username, c.password, c.projectId, AuthUrl) then
          Transcript([Prompt, Success, Completed] + Serve(frames[1..], facade),
                     connected + [LoginSuccessEntry(ip, port)], |frames|, PeerClosed)
        else
          Transcript([Prompt, Error, Failed], connected + [LoginFailedEntry(ip, port)], 1, LoginRejected)
  }

  /** The same session as one trace: its sends, reads and log entries
      interleaved in the order `handleClientRequest` performs them. */
  function SessionEvents(ip: string, port: nat, frames: seq<string>, authenticate: Authenticator,
                         facade: nat -> Catalog): seq<Event>
  {
    var conn := Logged(ConnectionEntry(ip, port));
    if frames == [] then [conn, Out(Prompt), Closed]
    else if !Accepted(frames[0], authenticate) then
      if ParseCredentials(frames[0]).None? then [conn, Out(Prompt), In(frames[0])]
      else [conn, Out(Prompt), In(frames[0]), Out(Error), Out(Failed), Logged(LoginFailedEntry(ip, port))]
    else
      [conn, Out(Prompt), In(frames[0]), Out(Success), Out(Completed), Logged(LoginSuccessEntry(ip, port))]
      + ServeEvents(frames[1..], facade) + [Closed]
  }

  /** The prompt is the first frame sent, and it is all a peer that closes
      before sending credentials receives (bigserver.py:148-149). */
  lemma ConversePrompt(ip: string, port: nat, frames: seq<string>, authenticate: Authenticator,
                       facade: nat -> Catalog)
    ensures var t := Converse(ip, port, frames, authenticate, facade);
      && |t.sent| >= 1 && t.sent[0] == Prompt
      && (frames == [] ==> t.sent == [Prompt] && t.received == 0 && t.ending == PeerClosed
                           && SessionEvents(ip, port, frames, authenticate, facade) == [Logged(ConnectionEntry(ip, port)), Out(Prompt), Closed])
  {
  }

  /** A credential frame without exactly two commas ends the session after the
      prompt: no verdict frame, no login entry, no command read
      (bigserver.py:150). */
  lemma ConverseMalformed(ip: string, port: nat, frames: seq<string>, authenticate: Authenticator,
                          facade: nat -> Catalog)
    requires frames != [] && Occ(frames[0], ',') != 2
    ensures var t := Converse(ip, port, frames, authenticate, facade);
      && t.sent == [Prompt] && t.log == [ConnectionEntry(ip, port)]
      && t.received == 1 && t.ending == UnpackError
      && SessionEvents(ip, port, frames, authenticate, facade) == [Logged(ConnectionEntry(ip, port)), Out(Prompt), In(frames[0])]
  {
  }

  /** A rejected login sends exactly the prompt, "error" and the failure
      frame, logs the failure and reads nothing more (bigserver.py:163-167). */
  lemma ConverseRejected(ip: string, port: nat, frames: seq<string>, authenticate: Authenticator,
                         facade: nat -> Catalog)
    requires frames != [] && Occ(frames[0], ',') == 2 && !Accepted(frames[0], authenticate)
    ensures var t := Converse(ip, port, frames, authenticate, facade);
      && t.sent == [Prompt, Error, Failed]
      && t.log == [ConnectionEntry(ip, port), LoginFailedEntry(ip, port)]
      && t.received == 1 && t.ending == LoginRejected
      && SessionEvents(ip, port, frames, authenticate, facade) == [Logged(ConnectionEntry(ip, port)), Out(Prompt), In(frames[0]),
                      Out(Error), Out(Failed), Logged(LoginFailedEntry(ip, port))]
  {
  }

  /** An accepted login sends the prompt, "success" and the completion frame,
      logs the success, and only then serves every further frame
      (bigserver.py:152-162). */
  lemma ConverseAccepted(ip: string, port: nat, frames: seq<string>, authenticate: Authenticator,
                         facade: nat -> Catalog)
    requires frames != [] && Accepted(frames[0], authenticate)
    ensures var t := Converse(ip, port, frames, authenticate, facade);
      && |t.sent| >= 3 && t.sent[..3] == [Prompt, Success, Completed]
      && t.sent[3..] == Serve(frames[1..], facade)
      && t.log == [ConnectionEntry(ip, port), LoginSuccessEntry(ip, port)]
      && t.received == |frames| && t.ending == PeerClosed
      && SessionEvents(ip, port, frames, authenticate, facade) == [Logged(ConnectionEntry(ip, port)), Out(Prompt), In(frames[0]),
                      Out(Success), Out(Completed), Logged(LoginSuccessEntry(ip, port))]
                     + ServeEvents(frames[1..], facade) + [Closed]
  {
  }

  /** No command is dispatched in a session whose login was not accepted:
      at most the three handshake frames go out, at most the credential
      frame is read, and the frames after it make no difference. */
  lemma ConverseUnauthenticated(ip: string, port: nat, frames: seq<string>, authenticate: Authenticator,
                                facade: nat -> Catalog)
    requires frames == [] || !Accepted(frames[0], authenticate)
    ensures var t := Converse(ip, port, frames, authenticate, facade);
      && |t.sent| <= 3 && t.received <= 1
      && t == Converse(ip, port, frames[..t.received], authenticate, facade)
  {
    if frames != [] {
      assert frames[..1][0] == frames[0];
    }
  }

  /** The audit log starts with the one connection entry, followed by at
      most one login entry (bigserver.py:38, 141-142, 156, 166). */
  lemma ConverseLog(ip: string, port: nat, frames: seq<string>, authenticate: Authenticator,
                    facade: nat -> Catalog)
    ensures var t := Converse(ip, port, frames, authenticate, facade);
      && 1 <= |t.log| <= 2 && t.log[0] == ConnectionEntry(ip, port)
      && (|t.log| == 2 <==> frames != [] && ParseCredentials(frames[0]).Some?)
      && (|t.log| == 2 ==>
            t.log[1] == if Accepted(frames[0], authenticate) then LoginSuccessEntry(ip, port)
                        else LoginFailedEntry(ip, port))
  {
  }

  /** The interleaved trace agrees with the transcript: it sends exactly
      the frames sent, logs exactly the entries logged, and reads exactly
      the frames consumed. */
  lemma ConverseProjections(ip: string, port: nat, frames: seq<string>, authenticate: Authenticator,
                            facade: nat -> Catalog)
    ensures var t := Converse(ip, port, frames, authenticate, facade);
      var e := SessionEvents(ip, port, frames, authenticate, facade);
      && SentBy(e) == t.sent && LoggedBy(e) == t.log && ReadBy(e) == frames[..t.received]
  {
    var t := Converse(ip, port, frames, authenticate, facade);
    var conn := ConnectionEntry(ip, port);
    if frames == [] {
      ConversePrompt(ip, port, frames, authenticate, facade);
      ShortTrace(conn, Prompt, Closed);
    } else if ParseCredentials(frames[0]).None? {
      ConverseMalformed(ip, port, frames, authenticate, facade);
      ShortTrace(conn, Prompt, In(frames[0]));
    } else if !Accepted(frames[0], authenticate) {
      ConverseRejected(ip, port, frames, authenticate, facade);
      LoginTrace(conn, Prompt, frames[0], Error, Failed, LoginFailedEntry(ip, port));
    } else {
      ConverseAccepted(ip, port, frames, authenticate, facade);
      AcceptedTrace(conn, frames, LoginSuccessEntry(ip, port), facade);
    }
  }

  /** The projections of an accepted session's trace. */
  lemma AcceptedTrace(conn: string, frames: seq<string>, entry: string, facade: nat -> Catalog)
    requires frames != []
    ensures var e := [Logged(conn), Out(Prompt), In(frames[0]), Out(Success), Out(Completed), Logged(entry)]
                     + ServeEvents(frames[1..], facade) + [Closed];
      && SentBy(e) == [Prompt, Success, Completed] + Serve(frames[1..], facade)
      && ReadBy(e) == frames && LoggedBy(e) == [conn, entry]
  {
    var login := [Logged(conn), Out(Prompt), In(frames[0]), Out(Success), Out(Completed), Logged(entry)];
    var serve := ServeEvents(frames[1..], facade);
    LoginTrace(conn, Prompt, frames[0], Success, Completed, entry);
    ProjectAppend(login, serve);
    ProjectSnoc(login + serve, Closed);
    ServeEventsProject(frames[1..], facade);
    TakeDrop(frames, 1);
    assert frames[..1] == [frames[0]];
  }

  /** The projections of a trace that ends right after the prompt. */
  lemma ShortTrace(conn: string, prompt: string, last: Event)
    requires !last.Out? && !last.Logged?
    ensures var e := [Logged(conn), Out(prompt), last];
      && SentBy(e) == [prompt] && LoggedBy(e) == [conn]
      && ReadBy(e) == if last.In? then [last.frame] else []
  {
    var e1 := [Logged(conn)];
    var e2 := [Logged(conn), Out(prompt)];
    var none: seq<string> := [];
    assert SentBy(e1) == [] && ReadBy(e1) == [] && LoggedBy(e1) == [conn] by {
      ProjectSnoc([], Logged(conn));
      assert [] + [Logged(conn)] == e1 && none + [conn] == [conn];
    }
    assert SentBy(e2) == [prompt] && ReadBy(e2) == [] && LoggedBy(e2) == [conn] by {
      ProjectSnoc(e1, Out(prompt));
      assert e1 + [Out(prompt)] == e2 && none + [prompt] == [prompt] && [conn] + none == [conn];
    }
    ProjectSnoc(e2, last);
    assert e2 + [last] == [Logged(conn), Out(prompt), last];
  }

  /** The projections of the six handshake events of a login attempt. */
  lemma LoginTrace(conn: string, prompt: string, frame: string, verdict: string, closing: string, entry: string)
    ensures var e := [Logged(conn), Out(prompt), In(frame), Out(verdict), Out(closing), Logged(entry)];
      && SentBy(e) == [prompt, verdict, closing] && ReadBy(e) == [frame] && LoggedBy(e) == [conn, entry]
  {
    var e3 := [Logged(conn), Out(prompt), In(frame)];
    ShortTrace(conn, prompt, In(frame));
    ProjectSnoc(e3, Out(verdict));
    ProjectSnoc(e3 + [Out(verdict)], Out(closing));
    ProjectSnoc(e3 + [Out(verdict)] + [Out(closing)], Logged(entry));
    assert e3 + [Out(verdict)] + [Out(closing)] + [Logged(entry)]
        == [Logged(conn), Out(prompt), In(frame), Out(verdict), Out(closing), Logged(entry)];
  }

  /** The prompt goes out before any frame is read: the trace opens with the
      connection entry and the prompt, and every read comes after them
      (bigserver.py:142-149). */
  lemma ConversePromptFirst(ip: string, port: nat, frames: seq<string>, authenticate: Authenticator,
                            facade: nat -> Catalog)
    ensures var e := SessionEvents(ip, port, frames, authenticate, facade);
      && |e| >= 3 && e[..2] == [Logged(ConnectionEntry(ip, port)), Out(Prompt)]
      && (frames != [] ==> e[2] == In(frames[0]))
      && forall i :: 0 <= i < |e| && (e[i].In? || e[i].Closed?) ==> 2 <= i
  {
    var e := SessionEvents(ip, port, frames, authenticate, facade);
    assert |e| >= 3 && e[0] == Logged(ConnectionEntry(ip, port)) && e[1] == Out(Prompt)
        && (frames != [] ==> e[2] == In(frames[0]));
  }

  /** A command frame is read only after the "success" frame, the completion
      frame and the login entry: every read after the credential frame
      belongs to an accepted session and follows those three events
      (bigserver.py:152-158). */
  lemma ConverseCommandsAfterLogin(ip: string, port: nat, frames: seq<string>, authenticate: Authenticator,
                                   facade: nat -> Catalog)
    ensures var e := SessionEvents(ip, port, frames, authenticate, facade);
      forall i :: 2 < i < |e| && e[i].In? ==>
        && frames != [] && Accepted(frames[0], authenticate) && 5 < i
        && e[3..6] == [Out(Success), Out(Completed), Logged(LoginSuccessEntry(ip, port))]
  {
    var e := SessionEvents(ip, port, frames, authenticate, facade);
    if frames == [] || !Accepted(frames[0], authenticate) {
      assert |e| <= 6 && forall i :: 2 < i < |e| ==> !e[i].In?;
    } else {
      var login := [Logged(ConnectionEntry(ip, port)), Out(Prompt), In(frames[0]),
                    Out(Success), Out(Completed), Logged(LoginSuccessEntry(ip, port))];
      assert e[..6] == login;
    }
  }

  /** The session is causal: when the peer sends more frames before closing,
      what went out and what was logged before only grows at the end. */
  lemma ConversePrefix(ip: string, port: nat, frames: seq<string>, more: seq<string>,
                       authenticate: Authenticator, facade: nat -> Catalog)
    ensures var t, t' := Converse(ip, port, frames, authenticate, facade),
                         Converse(ip, port, frames + more, authenticate, facade);
      && t.sent <= t'.sent && t.log <= t'.log && t.received <= t'.received
  {
    if frames != [] {
      assert (frames + more)[0] == frames[0];
      assert (frames + more)[1..] == frames[1..] + more;
      ServePrefix(frames[1..], more, facade);
    }
  }

  // ---------------------------------------------------------------------
  // The channel, the audit log and the handlers.

  /** The order in which one session's sends, reads and log entries
      happen, shared by its channel and its audit log. */
  class Timeline {
    ghost var events: seq<Event>

    constructor ()
      ensures events == []
    {
      events := [];
    }
  }

  /** The server's end of one websocket. */
  class Channel {
    var incoming: seq<string>
    var sent: seq<string>
    ghost const timeline: Timeline

    constructor (frames: seq<string>, ghost timeline: Timeline)
      ensures incoming == frames && sent == [] && this.timeline == timeline
    {
      incoming := frames;
      sent := [];
      this.timeline := timeline;
    }

    /** `await websocket.send(frame)`. */
    method Send(frame: string)
      modifies this, timeline
      ensures sent == old(sent) + [frame] && incoming == old(incoming)
      ensures timeline.events == old(timeline.events) + [Out(frame)]
    {
      sent := sent + [frame];
      timeline.events := timeline.events + [Out(frame)];
    }

    /** `await websocket.recv()`; None when the peer has closed, which the
        source sees as `ConnectionClosed`. */
    method Recv() returns (frame: Option<string>)
      modifies this, timeline
      ensures old(incoming) == [] ==>
        frame == None && incoming == [] && timeline.events == old(timeline.events) + [Closed]
      ensures old(incoming) != [] ==>
        && frame == Some(old(incoming)[0]) && incoming == old(incoming)[1..]
        && timeline.events == old(timeline.events) + [In(old(incoming)[0])]
      ensures sent == old(sent)
    {
      if incoming == [] {
        frame := None;
        timeline.events := timeline.events + [Closed];
      } else {
        frame := Some(incoming[0]);
        timeline.events := timeline.events + [In(incoming[0])];
        incoming := incoming[1..];
      }
    }
  }

  /** The handler's own log entries, one message per entry: the records
      its logging calls write (bigserver.py:38, 156, 166). */
  class AuditLog {
    var entries: seq<string>
    ghost const timeline: Timeline

    constructor (ghost timeline: Timeline)
      ensures entries == [] && this.timeline == timeline
    {
      entries := [];
      this.timeline := timeline;
    }

    /** `logging.info(message)` and `logging.warning(message)`. */
    method Append(message: string)
      modifies this, timeline
      ensures entries == old(entries) + [message]
      ensures timeline.events == old(timeline.events) + [Logged(message)]
    {
      entries := entries + [message];
      timeline.events := timeline.events + [Logged(message)];
    }
  }

  /** `logger` (bigserver.py:37-38). */
  method Logger(audit: AuditLog, ip: string, port: nat)
    modifies audit, audit.timeline
    ensures audit.entries == old(audit.entries) + [ConnectionEntry(ip, port)]
    ensures audit.timeline.events == old(audit.timeline.events) + [Logged(ConnectionEntry(ip, port))]
  {
    audit.Append(ConnectionEntry(ip, port));
  }

  /** `listImages` (bigserver.py:70-79); `images` is what
      `glance.images.list()` returned. */
  method ListImages(ws: Channel, images: seq<Resource>)
    modifies ws, ws.timeline
    ensures ws.sent == old(ws.sent) + ImagesReply(images)
    ensures ws.incoming == old(ws.incoming)
    ensures ws.timeline.events == old(ws.timeline.events) + Outs(ImagesReply(images))
  {
    if images == [] {
      ws.Send(NoImages);
    } else {
      var imageInfo := Join(Entries(images), '\n');
      ws.Send(imageInfo);
    }
  }

  /** `createInstance` (bigserver.py:101-132); `flavors` and `networks` are
      what `listFlavors` and `listNetworks` returned. */
  method CreateInstance(ws: Channel, flavors: seq<Resource>, networks: seq<Resource>)
    modifies ws, ws.timeline
    ensures ws.sent == old(ws.sent) + CreateInstanceReply(flavors, networks)
    ensures ws.incoming == old(ws.incoming)
    ensures ws.timeline.events == old(ws.timeline.events) + Outs(CreateInstanceReply(flavors, networks))
  {
    if flavors != [] && networks != [] {
      var flavorsInfo := Join(Entries(flavors), '\n');
      ws.Send(flavorsInfo);
      var networksInfo := Join(Entries(networks), '\n');
      ws.Send(networksInfo);
    } else {
      if flavors == [] {
        ws.Send(NoFlavors);
      }
      if networks == [] {
        ws.Send(NoNetworks);
      }
    }
  }

  /** The body of the command loop (bigserver.py:159-162). */
  method HandleRequest(ws: Channel, request: string, catalog: Catalog)
    modifies ws, ws.timeline
    ensures ws.sent == old(ws.sent) + Dispatch(request, catalog)
    ensures ws.incoming == old(ws.incoming)
    ensures ws.timeline.events == old(ws.timeline.events) + Outs(Dispatch(request, catalog))
  {
    if request == ListImagesCommand {
      ListImages(ws, catalog.images);
    } else if request == CreateInstanceCommand {
      CreateInstance(ws, catalog.flavors, catalog.networks);
    }
  }

  /** The command loop of an authenticated session (bigserver.py:157-162):
      it serves every frame the peer sends until the peer closes. */
  method CommandLoop(ws: Channel, facade: nat -> Catalog)
    modifies ws, ws.timeline
    ensures ws.sent == old(ws.sent) + Serve(old(ws.incoming), facade)
    ensures ws.incoming == []
    ensures ws.timeline.events == old(ws.timeline.events) + ServeEvents(old(ws.incoming), facade) + [Closed]
  {
    ghost var requests := ws.incoming;
    ghost var before := ws.timeline.events;
    var turn := 0;
    while true
      invariant turn <= |requests| && ws.incoming == requests[turn..]
      invariant ws.sent == old(ws.sent) + Serve(requests[..turn], facade)
      invariant ws.timeline.events == before + ServeEvents(requests[..turn], facade)
      decreases |ws.incoming|
    {
      var request := ws.Recv();
      if request == None {
        break;
      }
      assert request.value == requests[turn];
      HandleRequest(ws, request.value, facade(turn));
      ServeStep(requests, turn, facade);
      AppendAssoc(old(ws.sent), Serve(requests[..turn], facade), Dispatch(requests[turn], facade(turn)));
      ServeEventsStep(requests, turn, facade);
      TurnEvents(before, ServeEvents(requests[..turn], facade), requests[turn], Outs(Dispatch(requests[turn], facade(turn))));
      turn := turn + 1;
    }
    assert requests[..turn] == requests;
  }

  lemma TurnEvents(before: seq<Event>, done: seq<Event>, request: string, replies: seq<Event>)
    ensures before + done + [In(request)] + replies == before + (done + ([In(request)] + replies))
  {
  }

  /** The acknowledgement of an accepted login (bigserver.py:154-156): the
      two acceptance frames and the login entry. */
  method Acknowledge(ws: Channel, audit: AuditLog, ip: string, port: nat)
    requires ws.timeline == audit.timeline
    modifies ws, audit, ws.timeline
    ensures ws.sent == old(ws.sent) + [Success, Completed]
    ensures audit.entries == old(audit.entries) + [LoginSuccessEntry(ip, port)]
    ensures ws.incoming == old(ws.incoming)
    ensures ws.timeline.events == old(ws.timeline.events)
      + [Out(Success), Out(Completed), Logged(LoginSuccessEntry(ip, port))]
  {
    ws.Send(Success);
    ws.Send(Completed);
    audit.Append(LoginSuccessEntry(ip, port));
  }

  /** The accepted branch of `handleClientRequest` (bigserver.py:153-162):
      the acknowledgement, then the command loop. */
  method Admit(ws: Channel, audit: AuditLog, ip: string, port: nat, facade: nat -> Catalog)
    requires ws.timeline == audit.timeline
    modifies ws, audit, ws.timeline
    ensures ws.sent == old(ws.sent) + ([Success, Completed] + Serve(old(ws.incoming), facade))
    ensures audit.entries == old(audit.entries) + [LoginSuccessEntry(ip, port)]
    ensures ws.incoming == []
    ensures ws.timeline.events == old(ws.timeline.events)
      + ([Out(Success), Out(Completed), Logged(LoginSuccessEntry(ip, port))]
         + ServeEvents(old(ws.incoming), facade) + [Closed])
  {
    ghost var sent, trace := ws.sent, ws.timeline.events;
    ghost var requests := ws.incoming;
    Acknowledge(ws, audit, ip, port);
    CommandLoop(ws, facade);
    AppendAssoc(sent, [Success, Completed], Serve(requests, facade));
    ghost var login := [Out(Success), Out(Completed), Logged(LoginSuccessEntry(ip, port))];
    AppendAssoc(trace, login, ServeEvents(requests, facade));
    AppendAssoc(trace, login + ServeEvents(requests, facade), [Closed]);
  }

  /** The rejected branch of `handleClientRequest` (bigserver.py:164-166). */
  method Refuse(ws: Channel, audit: AuditLog, ip: string, port: nat)
    requires ws.timeline == audit.timeline
    modifies ws, audit, ws.timeline
    ensures ws.sent == old(ws.sent) + [Error, Failed]
    ensures audit.entries == old(audit.entries) + [LoginFailedEntry(ip, port)]
    ensures ws.incoming == old(ws.incoming)
    ensures ws.timeline.events == old(ws.timeline.events)
      + [Out(Error), Out(Failed), Logged(LoginFailedEntry(ip, port))]
  {
    ws.Send(Error);
    ws.Send(Failed);
    audit.Append(LoginFailedEntry(ip, port));
  }

  /** The greeting of `handleClientRequest` (bigserver.py:141-149): the
      connection entry, the prompt, and the read of the credential frame. */
  method Greet(ws: Channel, audit: AuditLog, ip: string, port: nat) returns (authInfo: Option<string>)
    requires ws.timeline == audit.timeline
    modifies ws, audit, ws.timeline
    ensures ws.sent == old(ws.sent) + [Prompt]
    ensures audit.entries == old(audit.entries) + [ConnectionEntry(ip, port)]
    ensures old(ws.incoming) == [] ==>
      && authInfo == None && ws.incoming == []
      && ws.timeline.events == old(ws.timeline.events) + [Logged(ConnectionEntry(ip, port)), Out(Prompt), Closed]
    ensures old(ws.incoming) != [] ==>
      && authInfo == Some(old(ws.incoming)[0]) && ws.incoming == old(ws.incoming)[1..]
      && ws.timeline.events
         == old(ws.timeline.events) + [Logged(ConnectionEntry(ip, port)), Out(Prompt), In(old(ws.incoming)[0])]
  {
    ghost var trace := ws.timeline.events;
    ghost var conn := Logged(ConnectionEntry(ip, port));
    Logger(audit, ip, port);
    ws.Send(Prompt);
    authInfo := ws.Recv();
    SnocThree(trace, conn, Out(Prompt), if authInfo == None then Closed else In(authInfo.value));
  }

  /** `handleClientRequest` (bigserver.py:137-169). */
  method HandleClientRequest(ws: Channel, audit: AuditLog, ip: string, port: nat,
                             authenticate: Authenticator, facade: nat -> Catalog)
    returns (ending: Ending)
    requires ws.timeline == audit.timeline
    modifies ws, audit, ws.timeline
    ensures var t := Converse(ip, port, old(ws.incoming), authenticate, facade);
      && ws.sent == old(ws.sent) + t.sent
      && audit.entries == old(audit.entries) + t.log
      && ws.incoming == old(ws.incoming)[t.received..]
      && ending == t.ending
      && ws.timeline.events
         == old(ws.timeline.events) + SessionEvents(ip, port, old(ws.incoming), authenticate, facade)
  {
    ghost var frames := ws.incoming;
    ghost var sent, log, trace := ws.sent, audit.entries, ws.timeline.events;
    ghost var conn := Logged(ConnectionEntry(ip, port));
    var authInfo := Greet(ws, audit, ip, port);
    if authInfo == None {
      ConversePrompt(ip, port, frames, authenticate, facade);
      return PeerClosed;
    }
    var fields := Split(authInfo.value, ',');
    if |fields| != 3 {
      ConverseMalformed(ip, port, frames, authenticate, facade);
      return UnpackError;
    }
    var username, password, projectId := fields[0], fields[1], fields[2];
    assert ParseCredentials(frames[0]) == Some(Credentials(username, password, projectId));
    var isAuthenticated := authenticate(username, password, projectId, AuthUrl);
    if isAuthenticated {
      Admit(ws, audit, ip, port, facade);
      ConverseAccepted(ip, port, frames, authenticate, facade);
      SpliceSix(trace, conn, Out(Prompt), In(frames[0]), Out(Success), Out(Completed),
                Logged(LoginSuccessEntry(ip, port)), ServeEvents(frames[1..], facade), Closed);
      SpliceThree(sent, Prompt, Success, Completed, Serve(frames[1..], facade));
      return PeerClosed;
    } else {
      Refuse(ws, audit, ip, port);
      ConverseRejected(ip, port, frames, authenticate, facade);
      AppendAssoc(sent, [Prompt], [Error, Failed]);
      AppendAssoc(trace, [conn, Out(Prompt), In(frames[0])], [Out(Error), Out(Failed), Logged(LoginFailedEntry(ip, port))]);
      return LoginRejected;
    }
  }
}
