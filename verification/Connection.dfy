/** Connecting and disconnecting (net/golioth/golioth.c): the socket, and whether the request engine accepts submissions.
    Each system call's outcome is a parameter. */
module Connection {
  import opened Common
  import opened Engine
  import opened CoapClient

  /** What the system calls give for one resolved address: a descriptor or an error, then one error number each for the
      socket options, the connect and the first datagram. */
  datatype Attempt = Attempt(fd: int, options: int, connect: int, hello: int)

  /** There is a descriptor, and options, connect and first datagram all went well. */
  predicate Good(a: Attempt)
  {
    a.fd >= 0 && a.options == 0 && a.connect == 0 && a.hello == 0
  }

  /** The error `golioth_connect_sockaddr` ends with. */
  function AttemptError(a: Attempt): (err: int)
    ensures err == 0 <==> Good(a)
  {
    if a.fd < 0 then a.fd else if a.options != 0 then a.options else if a.connect != 0 then a.connect else a.hello
  }

  /** The first attempt that succeeds; their number when none does. */
  function FirstGood(attempts: seq<Attempt>): (n: nat)
    ensures n <= |attempts|
    ensures n < |attempts| ==> Good(attempts[n])
    ensures forall i :: 0 <= i < n ==> !Good(attempts[i])
  {
    if attempts == [] || AttemptError(attempts[0]) == 0 then 0 else 1 + FirstGood(attempts[1..])
  }

  /** What `__golioth_connect` returns: 0, or the error of the last address tried. */
  function ConnectError(resolved: bool, attempts: seq<Attempt>): int
  {
    if !resolved then -EAGAIN
    else if FirstGood(attempts) < |attempts| then 0
    else if attempts == [] then -ENOENT
    else AttemptError(attempts[|attempts| - 1])
  }

  /** The socket is the descriptor of attempt `n`, in which all went well, and in each attempt before something did not. */
  predicate UsesFirstGood(sock: int, attempts: seq<Attempt>, n: nat)
    requires n < |attempts|
  {
    sock == attempts[n].fd && Good(attempts[n]) && forall i :: 0 <= i < n ==> !Good(attempts[i])
  }

  class GoliothConnection {
    const client: GoliothClient
    var sock: int
    ghost var open: set<int>   // descriptors opened and not closed yet

    /** Submission is accepted only while a socket is open. */
    ghost predicate Linked()
      reads this, client
    {
      client.connected ==> sock >= 0
    }

    /** No descriptor is open but the connection's own. */
    ghost predicate Valid()
      reads this, client
    {
      && Linked() && client.Valid()
      && open == (if sock >= 0 then {sock} else {})
    }

    /** `golioth_init`. */
    constructor (user: User)
      ensures Valid() && sock == -1 && client.State() == INITIAL_CLIENT && fresh(client) && client.reqs == []
    {
      client := new GoliothClient(user);
      sock := -1;
      open := {};
    }

    /** `golioth_connect_sockaddr`. */
    method ConnectSockaddr(a: Attempt) returns (err: int)
      requires Valid() && sock < 0
      modifies this
      ensures Valid() && err == AttemptError(a)
      ensures err == 0 <==> a.fd >= 0 && a.options == 0 && a.connect == 0 && a.hello == 0
      ensures a.fd < 0 ==> err == a.fd
      ensures a.fd >= 0 && a.options != 0 ==> err == a.options
      ensures a.fd >= 0 && a.options == 0 && a.connect != 0 ==> err == a.connect
      ensures a.fd >= 0 && a.options == 0 && a.connect == 0 ==> err == a.hello
      ensures if err == 0 then sock == a.fd else sock < 0
    {
      if a.fd < 0 {
        return a.fd;
      }
      ghost var fd := a.fd;
      open := open + {fd};
      err := a.options;
      if err == 0 {
        err := a.connect;
      }
      if err == 0 {
        sock := a.fd;
        err := a.hello;
        if err != 0 {
          sock := -1;
        }
      }
      if err != 0 {
        open := open - {fd};
      }
    }

    /** `__golioth_connect`: the addresses in turn, until one works. */
    method TryAddresses(resolved: bool, attempts: seq<Attempt>) returns (err: int)
      requires Valid() && sock < 0
      modifies this
      ensures Valid() && err == ConnectError(resolved, attempts)
      ensures err == 0 <==> resolved && exists n :: 0 <= n < |attempts| && Good(attempts[n])
      ensures !resolved ==> err == -11
      ensures resolved && attempts == [] ==> err == -2
      ensures err == 0 ==> exists n :: 0 <= n < |attempts| && UsesFirstGood(sock, attempts, n)
      ensures err != 0 ==> sock < 0
    {
      if !resolved {
        return -EAGAIN;
      }
      err := -ENOENT;
      var n := 0;
      while n < |attempts|
        invariant Valid() && sock < 0 && n <= |attempts|
        invariant forall i :: 0 <= i < n ==> AttemptError(attempts[i]) != 0
        invariant err == if n == 0 then -ENOENT else AttemptError(attempts[n - 1])
      {
        err := ConnectSockaddr(attempts[n]);
        if err == 0 {
          FirstGoodIs(attempts, n);
          assert UsesFirstGood(sock, attempts, n);
          return;
        }
        n := n + 1;
      }
      FirstGoodIs(attempts, n);
    }

    /** `golioth_connect`, with the submissions the user's on_connect hook makes. */
    method Connect(resolved: bool, attempts: seq<Attempt>, hook: seq<Draft>, now: int) returns (err: int)
      requires Valid()
      modifies this, client
      ensures Valid()
      ensures err == if old(sock) >= 0 then -EALREADY else ConnectError(resolved, attempts)
      ensures err == 0 ==> exists n :: 0 <= n < |attempts| && UsesFirstGood(sock, attempts, n)
      ensures err != 0 ==> (sock >= 0 <==> old(sock) >= 0)
      ensures err == 0 ==> client.connected
      ensures client.State() ==
        if err == 0 then SubmitAll(OnConnect(old(client.State())), hook, now) else old(client.State())
    {
      if sock >= 0 {
        return -EALREADY;
      }
      err := TryAddresses(resolved, attempts);
      if err == 0 {
        client.OnConnect();
        SubmitAllKeeps(client.State(), hook, now);
        client.SubmitAll(hook, now);
      }
    }

    /** `golioth_close`. `closed` is what closing the descriptor returns. */
    method Close(closed: int) returns (ret: int)
      requires Valid() && !client.connected
      modifies this
      ensures Valid() && sock == -1 && open == {}
      ensures ret == if old(sock) < 0 then -ENOTCONN else closed
    {
      ret := if sock < 0 then -ENOTCONN else closed;
      open := open - {sock};
      sock := -1;
    }

    /** `golioth_disconnect`: the engine first, so at no point are submissions accepted without a socket. */
    method Disconnect(closed: int, now: int) returns (ret: int)
      requires Valid()
      modifies this, client, client.reqs
      ensures Valid() && sock == -1 && open == {} && !client.connected
      ensures ret == if old(sock) < 0 then -ENOTCONN else closed
      ensures client.State() == OnDisconnect(old(client.State()), client.user, now)
    {
      CancelAllDisconnects(client.State().(connected := false), -ESHUTDOWN, client.user, now);
      client.OnDisconnect(now);
      assert !client.State().connected;
      ret := Close(closed);
    }
  }

  lemma FirstGoodIs(attempts: seq<Attempt>, n: nat)
    requires n <= |attempts| && forall i :: 0 <= i < n ==> AttemptError(attempts[i]) != 0
    requires n < |attempts| ==> AttemptError(attempts[n]) == 0
    ensures FirstGood(attempts) == n
  {
    var k := FirstGood(attempts);
    assert k <= n;
  }

  lemma {:induction false} CancelAllDisconnects(c: Client, reason: int, user: User, now: int)
    requires !c.connected
    ensures !CancelAll(c, reason, user, now).connected
    decreases |c.reqs|
  {
    if c.reqs != [] {
      InvokeKeeps(c, 0, ErrorRsp(reason), false, user, now);
      CancelAllDisconnects(Finish(c, 0, ErrorRsp(reason), user, now), reason, user, now);
    }
  }
}
