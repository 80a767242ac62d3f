/**
 * The interceptor that stamps every request with the authenticated user's id.
 *
 * Before the route handler runs, the user-id header of the request is overwritten with
 * the subject of the authenticated user, or with `undefined` when the request carries
 * no user. Whatever the client sent under that header is therefore no longer in the
 * request's headers; what a handler reads from elsewhere (the body, say) is not this
 * interceptor's concern. Control then passes to the next handler, whose stream is
 * returned as is.
 */
module Interceptors {
  import opened Wrappers

  type HeaderName = string

  /** Request headers; Some(v) is a value, None a header set to `undefined`. */
  type Headers = map<HeaderName, Option<string>>

  /**
   * The header that carries the user id between services. Its literal name lives in a
   * constants file that is not part of this model. Header names are keys as Node stores
   * them, in lower case, so the placeholder is lower case too.
   */
  const UserIdHeader: HeaderName := "x-userid"

  /** The verified access-token claims that authentication attaches to a request. */
  datatype TokenPayload = TokenPayload(sub: string)

  /** `user?.sub`: the subject when there is a user, `undefined` otherwise. */
  function Subject(user: Option<TokenPayload>): Option<string> {
    match user
    case Some(u) => Some(u.sub)
    case None => None
  }

  /** The headers after the interceptor has run. */
  function InjectUserId(headers: Headers, user: Option<TokenPayload>): (h: Headers)
    ensures UserIdHeader in h
    ensures user.Some? ==> h[UserIdHeader] == Some(user.value.sub)
    ensures user.None? ==> h[UserIdHeader] == None
    ensures forall k :: k != UserIdHeader ==> (k in h <==> k in headers)
    ensures forall k :: k in headers && k != UserIdHeader ==> h[k] == headers[k]
  {
    headers[UserIdHeader := Subject(user)]
  }

  /** Two requests that differ only in a client-supplied user-id header look the same afterwards. */
  lemma ClientUserIdIsOverwritten(h1: Headers, h2: Headers, user: Option<TokenPayload>)
    requires forall k :: k != UserIdHeader ==> (k in h1 <==> k in h2)
    requires forall k :: k in h1 && k != UserIdHeader ==> h1[k] == h2[k]
    ensures InjectUserId(h1, user) == InjectUserId(h2, user)
  {
  }

  /** An HTTP request: its mutable headers and the user authentication attached to it. */
  class Request {
    var headers: Headers
    const user: Option<TokenPayload>

    constructor (headers: Headers, user: Option<TokenPayload>)
      ensures this.headers == headers && this.user == user
    {
      this.headers := headers;
      this.user := user;
    }
  }

  /** The execution context of one call, from which the HTTP request is taken. */
  class ExecutionContext {
    const request: Request

    constructor (request: Request)
      ensures this.request == request
    {
      this.request := request;
    }
  }

  /** The stream of the route handler's response, left abstract. */
  datatype Observable = Observable(handle: nat)

  /** The rest of the chain; counts how often it was handed control. */
  class CallHandler {
    const stream: Observable
    var invocations: nat

    constructor (stream: Observable)
      ensures this.stream == stream && invocations == 0
    {
      this.stream := stream;
      invocations := 0;
    }

    method Handle() returns (s: Observable)
      modifies this
      ensures s == stream && invocations == old(invocations) + 1
    {
      s := stream;
      invocations := invocations + 1;
    }
  }

  class InjectUserIdInterceptor {
    constructor ()
    {
    }

    /** Overwrites the user-id header in place, then hands control on exactly once. */
    method Intercept(context: ExecutionContext, next: CallHandler) returns (s: Observable)
      modifies context.request, next
      ensures context.request.headers == InjectUserId(old(context.request.headers), context.request.user)
      ensures s == next.stream
      ensures next.invocations == old(next.invocations) + 1
    {
      var request := context.request;
      request.headers := request.headers[UserIdHeader := Subject(request.user)];
      s := next.Handle();
    }
  }
}
