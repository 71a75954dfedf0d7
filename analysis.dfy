/** The access-count aggregation of analysis.py: `track_user_access`
    folds parsed log records into per-(client IP, service) counts held in a
    dictionary of dictionaries, then flattens them into rows in the
    dictionaries' insertion order. Only the `client_ip` and `service` fields
    of a record are read, so a record is that pair. */
module AccessAnalysis {
  import opened Seqs

  datatype LogRecord = LogRecord(clientIp: string, service: string)

  /** One output row: {'User': ..., 'Service': ..., 'Access Count': ...}. */
  datatype Row = Row(user: string, service: string, accessCount: nat)

  /** A Python dict: its keys in insertion order and its entries. */
  datatype Dict<K, V> = Dict(keys: seq<K>, entries: map<K, V>)
  {
    /** `d[k] = v`: a new key goes to the end, an existing key keeps its place. */
    function Put(k: K, v: V): (d: Dict<K, V>)
      ensures k in d.entries && d.entries[k] == v
      ensures forall j :: j in entries && j != k ==> j in d.entries && d.entries[j] == entries[j]
      ensures d.entries.Keys == entries.Keys + {k}
      ensures keys <= d.keys && |d.keys| == |keys| + (if k in entries then 0 else 1)
      ensures k !in entries ==> d.keys[|keys|] == k
    {
      Dict(if k in entries then keys else keys + [k], entries[k := v])
    }
  }

  // ---------------------------------------------------------------------
  // The meaning of the aggregation, independent of the dictionaries.

  /** The client IP of every record, in log order. */
  function IpsOf(logs: seq<LogRecord>): (ips: seq<string>)
    ensures |ips| == |logs|
    decreases |logs|
  {
    if logs == [] then [] else IpsOf(logs[..|logs| - 1]) + [logs[|logs| - 1].clientIp]
  }

  /** The service of every record from `ip`, in log order. */
  function ServicesFor(logs: seq<LogRecord>, ip: string): seq<string>
    decreases |logs|
  {
    if logs == [] then []
    else
      var r := logs[|logs| - 1];
      ServicesFor(logs[..|logs| - 1], ip) + (if r.clientIp == ip then [r.service] else [])
  }

  /** The users (client IPs) in order of their first appearance. */
  function Users(logs: seq<LogRecord>): seq<string>
  {
    Distinct(IpsOf(logs))
  }

  /** The services `ip` used, in order of their first appearance for that IP. */
  function ServicesOf(logs: seq<LogRecord>, ip: string): seq<string>
  {
    Distinct(ServicesFor(logs, ip))
  }

  /** The number of records with this client IP and service. */
  function AccessCount(logs: seq<LogRecord>, ip: string, service: string): nat
  {
    Occ(logs, LogRecord(ip, service))
  }

  /** The rows for one user, one per service in the given order. */
  function UserRows(logs: seq<LogRecord>, ip: string, services: seq<string>): (rows: seq<Row>)
    ensures |rows| == |services|
    ensures forall k :: 0 <= k < |rows| ==> rows[k] == Row(ip, services[k], AccessCount(logs, ip, services[k]))
  {
    seq(|services|, k requires 0 <= k < |services| => Row(ip, services[k], AccessCount(logs, ip, services[k])))
  }

  /** The rows for the given users, each user's services in first-appearance order. */
  function RowsOver(logs: seq<LogRecord>, ips: seq<string>): seq<Row>
    decreases |ips|
  {
    if ips == [] then []
    else
      var ip := ips[|ips| - 1];
      RowsOver(logs, ips[..|ips| - 1]) + UserRows(logs, ip, ServicesOf(logs, ip))
  }

  /** What `track_user_access(logs)` returns. */
  function AccessRows(logs: seq<LogRecord>): seq<Row>
  {
    RowsOver(logs, Users(logs))
  }

  function TotalCount(rows: seq<Row>): nat
    decreases |rows|
  {
    if rows == [] then 0 else TotalCount(rows[..|rows| - 1]) + rows[|rows| - 1].accessCount
  }

  // ---------------------------------------------------------------------
  // The counting loop.

  /** Counting one record (analysis.py:37-39); both levels are
      defaultdicts, so a missing key reads as an empty dictionary or zero. */
  function CountRecord(tracker: Dict<string, Dict<string, nat>>, r: LogRecord): (counted: Dict<string, Dict<string, nat>>)
    ensures Lookup(counted, r.clientIp, r.service) == Lookup(tracker, r.clientIp, r.service) + 1
    ensures forall ip, service :: (ip != r.clientIp || service != r.service) ==>
      Lookup(counted, ip, service) == Lookup(tracker, ip, service)
  {
    var services := if r.clientIp in tracker.entries then tracker.entries[r.clientIp] else Dict([], map[]);
    var count := if r.service in services.entries then services.entries[r.service] else 0;
    tracker.Put(r.clientIp, services.Put(r.service, count + 1))
  }

  /** `tracker[ip][service]` read through the defaultdicts: zero for a
      pair never counted. */
  function Lookup(tracker: Dict<string, Dict<string, nat>>, ip: string, service: string): nat
  {
    if ip in tracker.entries && service in tracker.entries[ip].entries then tracker.entries[ip].entries[service]
    else 0
  }

  /** The nested dictionary after counting `logs` in order. */
  function Count(logs: seq<LogRecord>): Dict<string, Dict<string, nat>>
    decreases |logs|
  {
    if logs == [] then Dict([], map[]) else CountRecord(Count(logs[..|logs| - 1]), logs[|logs| - 1])
  }

  /** Read through the defaultdicts, the counted dictionary gives every
      (IP, service) pair, counted or not, its number of records. */
  lemma {:induction false} CountLookup(logs: seq<LogRecord>, ip: string, service: string)
    ensures Lookup(Count(logs), ip, service) == AccessCount(logs, ip, service)
    decreases |logs|
  {
    if logs != [] {
      var p, r := logs[..|logs| - 1], logs[|logs| - 1];
      DropLast(logs);
      CountLookup(p, ip, service);
      AccessCountStep(p, r, ip, service);
    }
  }

  lemma CountStep(logs: seq<LogRecord>, i: nat)
    requires i < |logs|
    ensures Count(logs[..i + 1]) == CountRecord(Count(logs[..i]), logs[i])
  {
    assert logs[..i + 1][..i] == logs[..i];
  }

  /** The counting loop of `track_user_access` (analysis.py:33-39). */
  method CountAccesses(logs: seq<LogRecord>) returns (accessTracker: Dict<string, Dict<string, nat>>)
    ensures accessTracker == Count(logs)
  {
    accessTracker := Dict([], map[]);
    var i := 0;
    while i < |logs|
      invariant 0 <= i <= |logs|
      invariant accessTracker == Count(logs[..i])
    {
      CountStep(logs, i);
      // access_tracker[client_ip][service] += 1
      accessTracker := CountRecord(accessTracker, logs[i]);
      i := i + 1;
    }
    assert logs[..i] == logs;
  }

  // How the specification functions change when one record is appended.

  lemma UsersStep(logs: seq<LogRecord>, r: LogRecord)
    ensures Users(logs + [r]) == if r.clientIp in Users(logs) then Users(logs) else Users(logs) + [r.clientIp]
  {
    assert (logs + [r])[..|logs|] == logs;
    assert IpsOf(logs + [r]) == IpsOf(logs) + [r.clientIp];
    DistinctSnoc(IpsOf(logs), r.clientIp);
  }

  lemma ServicesOfStep(logs: seq<LogRecord>, r: LogRecord, ip: string)
    ensures ServicesOf(logs + [r], ip) ==
      if ip != r.clientIp || r.service in ServicesOf(logs, ip) then ServicesOf(logs, ip)
      else ServicesOf(logs, ip) + [r.service]
  {
    var l := logs + [r];
    assert l[..|logs|] == logs;
    if ip == r.clientIp {
      assert ServicesFor(l, ip) == ServicesFor(logs, ip) + [r.service];
      DistinctSnoc(ServicesFor(logs, ip), r.service);
    } else {
      assert ServicesFor(l, ip) == ServicesFor(logs, ip);
    }
  }

  lemma AccessCountStep(logs: seq<LogRecord>, r: LogRecord, ip: string, service: string)
    ensures AccessCount(logs + [r], ip, service) ==
      AccessCount(logs, ip, service) + if r == LogRecord(ip, service) then 1 else 0
  {
    OccSnoc(logs, r, LogRecord(ip, service));
  }

  /** A user is listed exactly when some record comes from that IP. */
  lemma {:induction false} IpsOfMember(logs: seq<LogRecord>, ip: string)
    ensures ip in IpsOf(logs) <==> exists service :: LogRecord(ip, service) in logs
    decreases |logs|
  {
    if logs != [] {
      var p, r := logs[..|logs| - 1], logs[|logs| - 1];
      DropLast(logs);
      IpsOfMember(p, ip);
      if ip == r.clientIp {
        assert LogRecord(ip, r.service) in logs;
      }
      if exists service :: LogRecord(ip, service) in logs {
        var service :| LogRecord(ip, service) in logs;
        if LogRecord(ip, service) != r {
          assert LogRecord(ip, service) in p;
        }
      }
    }
  }

  /** A service is listed for `ip` exactly when a record pairs them. */
  lemma {:induction false} ServicesForMember(logs: seq<LogRecord>, ip: string, service: string)
    ensures service in ServicesFor(logs, ip) <==> LogRecord(ip, service) in logs
    decreases |logs|
  {
    if logs != [] {
      var p, r := logs[..|logs| - 1], logs[|logs| - 1];
      DropLast(logs);
      ServicesForMember(p, ip, service);
    }
  }

  // What the counted dictionary holds.

  /** A user has an inner dictionary exactly when some record comes from that IP. */
  lemma {:induction false} CountUser(logs: seq<LogRecord>, ip: string)
    ensures ip in Count(logs).entries <==> ip in IpsOf(logs)
    decreases |logs|
  {
    if logs != [] {
      var p := logs[..|logs| - 1];
      CountUser(p, ip);
    }
  }

  /** The users are listed in order of their first record. */
  lemma {:induction false} CountUsers(logs: seq<LogRecord>)
    ensures Count(logs).keys == Users(logs)
    decreases |logs|
  {
    if logs != [] {
      var p, r := logs[..|logs| - 1], logs[|logs| - 1];
      DropLast(logs);
      CountUsers(p);
      CountUser(p, r.clientIp);
      DistinctMember(IpsOf(p), r.clientIp);
      UsersStep(p, r);
    }
  }

  /** A user's inner dictionary has a service exactly when a record pairs them. */
  lemma {:induction false} CountService(logs: seq<LogRecord>, ip: string, service: string)
    requires ip in Count(logs).entries
    ensures service in Count(logs).entries[ip].entries <==> LogRecord(ip, service) in logs
    decreases |logs|
  {
    var p, r := logs[..|logs| - 1], logs[|logs| - 1];
    DropLast(logs);
    CountUser(p, ip);
    if ip in Count(p).entries {
      CountService(p, ip, service);
    } else {
      IpsOfMember(p, ip);
      assert LogRecord(ip, service) !in p;
    }
  }

  /** A user's services are listed in order of their first record from that IP. */
  lemma {:induction false} CountServices(logs: seq<LogRecord>, ip: string)
    requires ip in Count(logs).entries
    ensures Count(logs).entries[ip].keys == ServicesOf(logs, ip)
    decreases |logs|
  {
    var p, r := logs[..|logs| - 1], logs[|logs| - 1];
    DropLast(logs);
    ServicesOfStep(p, r, ip);
    CountUser(p, ip);
    if ip in Count(p).entries {
      CountServices(p, ip);
      if ip == r.clientIp {
        CountService(p, ip, r.service);
        DistinctMember(ServicesFor(p, ip), r.service);
        ServicesForMember(p, ip, r.service);
      }
    } else {
      NoServices(p, ip);
    }
  }

  /** An IP with no records has no services. */
  lemma NoServices(logs: seq<LogRecord>, ip: string)
    requires ip !in IpsOf(logs)
    ensures ServicesOf(logs, ip) == []
  {
    if ServicesFor(logs, ip) != [] {
      var service := ServicesFor(logs, ip)[0];
      ServicesForMember(logs, ip, service);
      IpsOfMember(logs, ip);
    }
  }

  /** Every count is the number of records with that IP and service. */
  lemma CountValue(logs: seq<LogRecord>, ip: string, service: string)
    requires ip in Count(logs).entries && service in Count(logs).entries[ip].entries
    ensures Count(logs).entries[ip].entries[service] == AccessCount(logs, ip, service)
  {
    CountLookup(logs, ip, service);
  }

  // ---------------------------------------------------------------------
  // Flattening the nested dictionary.

  /** Every listed key has an entry, in the outer and every inner dictionary. */
  ghost predicate Nested(tracker: Dict<string, Dict<string, nat>>)
  {
    && (forall u :: 0 <= u < |tracker.keys| ==> tracker.keys[u] in tracker.entries)
    && (forall ip :: ip in tracker.entries ==> Listed(tracker.entries[ip]))
  }

  ghost predicate Listed(services: Dict<string, nat>)
  {
    forall s :: 0 <= s < |services.keys| ==> services.keys[s] in services.entries
  }

  /** The rows of one inner dictionary, in its insertion order. */
  ghost function InnerRows(ip: string, services: Dict<string, nat>): (rows: seq<Row>)
    requires Listed(services)
    ensures |rows| == |services.keys|
    ensures forall s :: 0 <= s < |rows| ==>
      rows[s] == Row(ip, services.keys[s], services.entries[services.keys[s]])
  {
    seq(|services.keys|, s requires 0 <= s < |services.keys| =>
      Row(ip, services.keys[s], services.entries[services.keys[s]]))
  }

  /** The rows of the first `n` users of the outer dictionary. */
  ghost function Flattened(tracker: Dict<string, Dict<string, nat>>, n: nat): seq<Row>
    requires Nested(tracker) && n <= |tracker.keys|
  {
    if n == 0 then []
    else
      var ip := tracker.keys[n - 1];
      Flattened(tracker, n - 1) + InnerRows(ip, tracker.entries[ip])
  }

  /** The flattening loop of `track_user_access` (analysis.py:41-49): every
      inner entry becomes a row, users and their services in insertion order. */
  method Flatten(accessTracker: Dict<string, Dict<string, nat>>) returns (data: seq<Row>)
    requires Nested(accessTracker)
    ensures data == Flattened(accessTracker, |accessTracker.keys|)
  {
    data := [];
    var u := 0;
    while u < |accessTracker.keys|
      invariant 0 <= u <= |accessTracker.keys|
      invariant data == Flattened(accessTracker, u)
    {
      var clientIp := accessTracker.keys[u];
      data := FlattenUser(data, clientIp, accessTracker.entries[clientIp]);
      u := u + 1;
    }
  }

  /** The inner loop of the flattening (analysis.py:43-49). */
  method FlattenUser(data: seq<Row>, clientIp: string, services: Dict<string, nat>)
    returns (data': seq<Row>)
    requires Listed(services)
    ensures data' == data + InnerRows(clientIp, services)
  {
    ghost var rows := InnerRows(clientIp, services);
    data' := data;
    var s := 0;
    while s < |services.keys|
      invariant 0 <= s <= |services.keys|
      invariant data' == data + rows[..s]
    {
      var service := services.keys[s];
      TakeSnoc(rows, s);
      AppendAssoc(data, rows[..s], [rows[s]]);
      data' := data' + [Row(clientIp, service, services.entries[service])];
      s := s + 1;
    }
    assert rows[..s] == rows;
  }

  /** The counted dictionary flattens to the rows the records call for. */
  lemma {:induction false} CountFlattened(logs: seq<LogRecord>, n: nat)
    requires Nested(Count(logs)) && Count(logs).keys == Users(logs) && n <= |Users(logs)|
    ensures Flattened(Count(logs), n) == RowsOver(logs, Users(logs)[..n])
    decreases n
  {
    if n > 0 {
      var users := Users(logs);
      CountFlattened(logs, n - 1);
      CountInnerRows(logs, users[n - 1]);
      TakeTake(users, n);
    }
  }

  lemma CountNested(logs: seq<LogRecord>)
    ensures Nested(Count(logs))
  {
    var tracker := Count(logs);
    CountUsers(logs);
    forall u | 0 <= u < |tracker.keys| ensures tracker.keys[u] in tracker.entries {
      DistinctMember(IpsOf(logs), tracker.keys[u]);
      CountUser(logs, tracker.keys[u]);
    }
    forall ip | ip in tracker.entries ensures Listed(tracker.entries[ip]) {
      CountListed(logs, ip);
    }
  }

  lemma CountListed(logs: seq<LogRecord>, ip: string)
    requires ip in Count(logs).entries
    ensures Listed(Count(logs).entries[ip])
  {
    var services := Count(logs).entries[ip];
    CountServices(logs, ip);
    forall s | 0 <= s < |services.keys| ensures services.keys[s] in services.entries {
      DistinctMember(ServicesFor(logs, ip), services.keys[s]);
      ServicesForMember(logs, ip, services.keys[s]);
      CountService(logs, ip, services.keys[s]);
    }
  }

  /** A user's inner dictionary flattens to that user's rows. */
  lemma CountInnerRows(logs: seq<LogRecord>, ip: string)
    requires ip in Users(logs)
    ensures ip in Count(logs).entries && Listed(Count(logs).entries[ip])
    ensures InnerRows(ip, Count(logs).entries[ip]) == UserRows(logs, ip, ServicesOf(logs, ip))
  {
    DistinctMember(IpsOf(logs), ip);
    CountUser(logs, ip);
    CountListed(logs, ip);
    CountServices(logs, ip);
    var services := Count(logs).entries[ip];
    forall s | 0 <= s < |services.keys|
      ensures services.entries[services.keys[s]] == AccessCount(logs, ip, services.keys[s])
    {
      CountValue(logs, ip, services.keys[s]);
    }
  }

  /** `track_user_access` (analysis.py:28-51): count every record into the
      nested dictionary, then flatten it into rows. */
  method TrackUserAccess(logs: seq<LogRecord>) returns (data: seq<Row>)
    ensures data == AccessRows(logs)
    ensures logs == [] ==> data == []
  {
    var accessTracker := CountAccesses(logs);
    CountNested(logs);
    CountUsers(logs);
    CountFlattened(logs, |Users(logs)|);
    assert Users(logs)[..|Users(logs)|] == Users(logs);
    data := Flatten(accessTracker);
  }

  // ---------------------------------------------------------------------
  // Properties of the output rows.

  /** A row belongs to the output for `ips` exactly when its user is one of
      `ips`, its service one that user used, and its count that pair's count. */
  lemma {:induction false} RowsOverMember(logs: seq<LogRecord>, ips: seq<string>, row: Row)
    ensures row in RowsOver(logs, ips) <==>
      row.user in ips && row.service in ServicesOf(logs, row.user)
      && row.accessCount == AccessCount(logs, row.user, row.service)
    decreases |ips|
  {
    if ips != [] {
      var init, ip := ips[..|ips| - 1], ips[|ips| - 1];
      assert ips == init + [ip];
      RowsOverMember(logs, init, row);
      var u := UserRows(logs, ip, ServicesOf(logs, ip));
      if row.user == ip && row.service in ServicesOf(logs, ip) && row.accessCount == AccessCount(logs, row.user, row.service) {
        var k := IndexOf(ServicesOf(logs, ip), row.service);
        assert u[k] == row;
      }
    }
  }

  /** Every output row carries the number of records with its user and
      service, and that number is at least one. */
  lemma AccessRowsCounts(logs: seq<LogRecord>, row: Row)
    requires row in AccessRows(logs)
    ensures row.accessCount == AccessCount(logs, row.user, row.service)
    ensures row.accessCount >= 1
  {
    RowsOverMember(logs, Users(logs), row);
    DistinctMember(ServicesFor(logs, row.user), row.service);
    ServicesForMember(logs, row.user, row.service);
  }

  /** A (user, service) pair has an output row exactly when some record has
      that client IP and service. */
  lemma AccessRowsCover(logs: seq<LogRecord>, ip: string, service: string)
    ensures (exists row :: row in AccessRows(logs) && row.user == ip && row.service == service)
      <==> LogRecord(ip, service) in logs
  {
    ServicesForMember(logs, ip, service);
    DistinctMember(ServicesFor(logs, ip), service);
    DistinctMember(IpsOf(logs), ip);
    var row := Row(ip, service, AccessCount(logs, ip, service));
    RowsOverMember(logs, Users(logs), row);
    if LogRecord(ip, service) in logs {
      IpsOfMember(logs, ip);
      assert row in AccessRows(logs);
    }
    if exists row :: row in AccessRows(logs) && row.user == ip && row.service == service {
      var r :| r in AccessRows(logs) && r.user == ip && r.service == service;
      RowsOverMember(logs, Users(logs), r);
    }
  }

  /** Rows of different users follow the users' order in `ips`, and the rows
      of one user follow the order of that user's services. */
  lemma {:induction false} RowsOverOrdered(logs: seq<LogRecord>, ips: seq<string>, i: nat, j: nat)
    requires NoDups(ips)
    requires i < j < |RowsOver(logs, ips)|
    ensures var rows := RowsOver(logs, ips);
      && rows[i].user in ips && rows[j].user in ips
      && IndexOf(ips, rows[i].user) <= IndexOf(ips, rows[j].user)
      && (rows[i].user == rows[j].user ==>
            var services := ServicesOf(logs, rows[i].user);
            && rows[i].service in services && rows[j].service in services
            && IndexOf(services, rows[i].service) < IndexOf(services, rows[j].service))
    decreases |ips|
  {
    var rows := RowsOver(logs, ips);
    var init, ip := ips[..|ips| - 1], ips[|ips| - 1];
    assert ips == init + [ip];
    assert NoDups(init);
    var front := RowsOver(logs, init);
    var services := ServicesOf(logs, ip);
    var back := UserRows(logs, ip, services);
    assert rows == front + back;
    IndexOfNoDups(ips, |ips| - 1);
    if j < |front| {
      RowsOverOrdered(logs, init, i, j);
      assert rows[i] == front[i] && rows[j] == front[j];
      IndexOfPrefix(init, [ip], rows[i].user);
      IndexOfPrefix(init, [ip], rows[j].user);
    } else if i >= |front| {
      assert rows[i] == back[i - |front|] && rows[j] == back[j - |front|];
      DistinctNoDups(ServicesFor(logs, ip));
      IndexOfNoDups(services, i - |front|);
      IndexOfNoDups(services, j - |front|);
    } else {
      assert rows[i] == front[i];
      assert front[i] in front;
      RowsOverMember(logs, init, front[i]);
      IndexOfPrefix(init, [ip], rows[i].user);
      assert rows[j] == back[j - |front|];
    }
  }

  /** Output order (analysis.py:33, 43-44): rows are grouped by user, users
      in the order of their first record, and within one user the services
      in the order of their first record from that IP. */
  lemma AccessRowsOrdered(logs: seq<LogRecord>, i: nat, j: nat)
    requires i < j < |AccessRows(logs)|
    ensures var rows := AccessRows(logs);
      && rows[i].user in IpsOf(logs) && rows[j].user in IpsOf(logs)
      && (rows[i].user != rows[j].user ==> IndexOf(IpsOf(logs), rows[i].user) < IndexOf(IpsOf(logs), rows[j].user))
      && (rows[i].user == rows[j].user ==>
            && rows[i].service in ServicesFor(logs, rows[i].user)
            && rows[j].service in ServicesFor(logs, rows[i].user)
            && IndexOf(ServicesFor(logs, rows[i].user), rows[i].service)
               < IndexOf(ServicesFor(logs, rows[i].user), rows[j].service))
  {
    var rows := AccessRows(logs);
    var users := Users(logs);
    DistinctNoDups(IpsOf(logs));
    RowsOverOrdered(logs, users, i, j);
    var a, b := IndexOf(users, rows[i].user), IndexOf(users, rows[j].user);
    DistinctMember(IpsOf(logs), rows[i].user);
    DistinctMember(IpsOf(logs), rows[j].user);
    if rows[i].user != rows[j].user {
      assert a != b by { assert users[a] == rows[i].user && users[b] == rows[j].user; }
      DistinctFirstAppearance(IpsOf(logs), a, b);
    } else {
      var services := ServicesOf(logs, rows[i].user);
      DistinctFirstAppearance(ServicesFor(logs, rows[i].user),
        IndexOf(services, rows[i].service), IndexOf(services, rows[j].service));
    }
  }

  /** Each (user, service) pair occupies at most one output row. */
  lemma AccessRowsUnique(logs: seq<LogRecord>, i: nat, j: nat)
    requires i < j < |AccessRows(logs)|
    ensures (AccessRows(logs)[i].user, AccessRows(logs)[i].service)
      != (AccessRows(logs)[j].user, AccessRows(logs)[j].service)
  {
    DistinctNoDups(IpsOf(logs));
    RowsOverOrdered(logs, Users(logs), i, j);
  }

  lemma TotalCountAppend(a: seq<Row>, b: seq<Row>)
    ensures TotalCount(a + b) == TotalCount(a) + TotalCount(b)
    decreases |b|
  {
    if b == [] {
      assert a + b == a;
    } else {
      var b' := b[..|b| - 1];
      assert (a + b)[..|a + b| - 1] == a + b';
      assert (a + b)[|a + b| - 1] == b[|b| - 1];
      TotalCountAppend(a, b');
    }
  }

  /** Each record of `ip` is counted under its service. */
  lemma {:induction false} ServicesForCount(logs: seq<LogRecord>, ip: string, service: string)
    ensures Occ(ServicesFor(logs, ip), service) == AccessCount(logs, ip, service)
    decreases |logs|
  {
    if logs != [] {
      var p, r := logs[..|logs| - 1], logs[|logs| - 1];
      DropLast(logs);
      ServicesForCount(p, ip, service);
      OccSnoc(p, r, LogRecord(ip, service));
      if r.clientIp == ip {
        assert ServicesFor(logs, ip) == ServicesFor(p, ip) + [r.service];
        OccSnoc(ServicesFor(p, ip), r.service, service);
      } else {
        assert ServicesFor(logs, ip) == ServicesFor(p, ip);
      }
    }
  }

  /** A user's records are as many as that IP's occurrences in the log. */
  lemma {:induction false} ServicesForLength(logs: seq<LogRecord>, ip: string)
    ensures |ServicesFor(logs, ip)| == Occ(IpsOf(logs), ip)
    decreases |logs|
  {
    if logs != [] {
      var p := logs[..|logs| - 1];
      ServicesForLength(p, ip);
      OccSnoc(IpsOf(p), logs[|logs| - 1].clientIp, ip);
    }
  }

  lemma {:induction false} UserRowsTotal(logs: seq<LogRecord>, ip: string, services: seq<string>)
    ensures TotalCount(UserRows(logs, ip, services)) == SumOcc(services, ServicesFor(logs, ip))
    decreases |services|
  {
    if services != [] {
      var init, s := services[..|services| - 1], services[|services| - 1];
      var rows := UserRows(logs, ip, services);
      assert rows[..|rows| - 1] == UserRows(logs, ip, init);
      UserRowsTotal(logs, ip, init);
      ServicesForCount(logs, ip, s);
    }
  }

  lemma {:induction false} RowsOverTotal(logs: seq<LogRecord>, ips: seq<string>)
    ensures TotalCount(RowsOver(logs, ips)) == SumOcc(ips, IpsOf(logs))
    decreases |ips|
  {
    if ips != [] {
      var init, ip := ips[..|ips| - 1], ips[|ips| - 1];
      RowsOverTotal(logs, init);
      TotalCountAppend(RowsOver(logs, init), UserRows(logs, ip, ServicesOf(logs, ip)));
      UserRowsTotal(logs, ip, ServicesOf(logs, ip));
      DistinctOccurrences(ServicesFor(logs, ip));
      ServicesForLength(logs, ip);
    }
  }

  /** Conservation: the access counts of all rows add up to the number of
      records. */
  lemma AccessRowsTotal(logs: seq<LogRecord>)
    ensures TotalCount(AccessRows(logs)) == |logs|
  {
    RowsOverTotal(logs, Users(logs));
    DistinctOccurrences(IpsOf(logs));
  }
}
