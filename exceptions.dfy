/** The project's exception handler: the framework's own handler, except that a
    403 answered to a caller who is not signed in becomes the 401 of
    NotAuthenticated. */
module Exceptions {
  import opened Base

  /** The kinds of API exception the framework renders. */
  datatype Kind = NotAuthenticatedKind | AuthenticationFailedKind | PermissionDeniedKind | NotFoundKind | ValidationKind | OtherApiKind

  /** What reaches the handler: an API exception with its status code (the
      framework may already have turned an authentication failure's 401 into 403
      when no authentication header can be offered), Django's Http404 or
      PermissionDenied, or anything else. */
  datatype Exc = Api(kind: Kind, status: int) | Http404 | DjangoPermissionDenied | Unhandled

  /** A rendered error: the status code and the kind of exception behind it. */
  datatype Response = Response(status: int, kind: Kind)

  /** `request.user`: unset (`None`), the anonymous user, or a signed-in user. */
  datatype Caller = NoCaller | AnonymousCaller | SignedIn

  /** `request.user and request.user.is_authenticated`. */
  predicate IsAuthenticated(c: Caller) {
    c.SignedIn?
  }

  /** The framework's `exception_handler`: Http404 and Django's PermissionDenied are
      rendered as their API counterparts, an API exception with its own status,
      and anything else is left to propagate (`None`). */
  function BaseHandler(exc: Exc): (r: Option<Response>)
    ensures r.None? <==> exc.Unhandled?
    ensures exc.Api? ==> r == Some(Response(exc.status, exc.kind))
    ensures exc.Http404? ==> r == Some(Response(HttpNotFound, NotFoundKind))
    ensures exc.DjangoPermissionDenied? ==> r == Some(Response(HttpForbidden, PermissionDeniedKind))
  {
    match exc
    case Api(kind, status) => Some(Response(status, kind))
    case Http404 => Some(Response(HttpNotFound, NotFoundKind))
    case DjangoPermissionDenied => Some(Response(HttpForbidden, PermissionDeniedKind))
    case Unhandled => None
  }

  /** `NotAuthenticated("...")`, whose status is 401. */
  const NotAuthenticatedExc: Exc := Api(NotAuthenticatedKind, HttpUnauthorized)

  /** `custom_exception_handler`. */
  function Handle(exc: Exc, caller: Caller): (r: Option<Response>)
    ensures BaseHandler(exc).None? ==> r.None?
    ensures BaseHandler(exc).Some? && BaseHandler(exc).value.status != HttpForbidden ==> r == BaseHandler(exc)
    ensures IsAuthenticated(caller) ==> r == BaseHandler(exc)
    ensures BaseHandler(exc).Some? && BaseHandler(exc).value.status == HttpForbidden && !IsAuthenticated(caller) ==>
              r == Some(Response(HttpUnauthorized, NotAuthenticatedKind))
  {
    var response := BaseHandler(exc);
    if response.Some? && response.value.status == HttpForbidden && !IsAuthenticated(caller) then
      BaseHandler(NotAuthenticatedExc)
    else response
  }

  /** A caller who is not signed in is never answered 403; every other status
      passes through, and only a 403 is ever rewritten. */
  lemma NoForbiddenForAnonymous(exc: Exc, caller: Caller)
    ensures !IsAuthenticated(caller) ==> Handle(exc, caller).None? || Handle(exc, caller).value.status != HttpForbidden
    ensures Handle(exc, caller) != BaseHandler(exc) ==>
              BaseHandler(exc).Some? && BaseHandler(exc).value.status == HttpForbidden && !IsAuthenticated(caller)
  {
  }

  /** Handling is stable: rendering the handler's own replacement again gives the
      same response, so the remap cannot chain. */
  lemma RemapIsFinal(exc: Exc, caller: Caller)
    requires Handle(exc, caller).Some?
    ensures Handle(Api(Handle(exc, caller).value.kind, Handle(exc, caller).value.status), caller) == Handle(exc, caller)
  {
  }
}
