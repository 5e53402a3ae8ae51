/**
 * `Auth`: the client-side authentication facade. A process-wide registry holds the
 * registered auth service and a lazily created `Auth` instance bound to it; the instance
 * subscribes to the service's state changes and forwards them to its own subscribers.
 */
module Authentication {
  import opened Wrappers

  /** The credentials an auth service reports; only their identity matters here. */
  datatype Credentials = Credentials(uid: string)

  /** A subscriber callback, identified by a name of its own. */
  type Callback = nat

  /** One forwarded state change: the subscribers it was delivered to and what they received. */
  datatype Notification = Notification(recipients: set<Callback>, credentials: Credentials)

  /** Building an instance before any service is registered is an error. */
  datatype AuthError = NoAuthService

  /** A concrete auth service; it remembers who subscribed to its state changes, in order. */
  class AuthService {
    var listeners: seq<Auth>

    constructor ()
      ensures listeners == []
    {
      listeners := [];
    }
  }

  class Auth {
    /** The service this instance was built for. */
    const service: AuthService
    /** The callbacks subscribed with `onAuthStateChange`. */
    var subscribers: set<Callback>
    /** Every state change this instance has forwarded, oldest first. */
    var notifications: seq<Notification>

    /** The protected constructor, once a service is registered: subscribes to it once. */
    constructor (service: AuthService)
      modifies service
      ensures this.service == service
      ensures subscribers == {} && notifications == []
      ensures service.listeners == old(service.listeners) + [this]
    {
      this.service := service;
      subscribers := {};
      notifications := [];
      new;
      service.listeners := service.listeners + [this];
    }

    /** `onAuthStateChange(cb)`: `cb` receives every later state change. */
    method OnAuthStateChange(cb: Callback)
      modifies this
      ensures subscribers == old(subscribers) + {cb}
      ensures notifications == old(notifications)
    {
      subscribers := subscribers + {cb};
    }

    /** `removeAuthStateChange(cb)`: `cb` receives no later state change. */
    method RemoveAuthStateChange(cb: Callback)
      modifies this
      ensures subscribers == old(subscribers) - {cb}
      ensures notifications == old(notifications)
    {
      subscribers := subscribers - {cb};
    }

    /** `authStateChanged`: what the service reports reaches every current subscriber. */
    method AuthStateChanged(credentials: Credentials)
      modifies this
      ensures notifications == old(notifications) + [Notification(subscribers, credentials)]
      ensures subscribers == old(subscribers)
    {
      notifications := notifications + [Notification(subscribers, credentials)];
    }
  }

  /** The static state of `Auth`: the registered service and the cached instance. */
  class AuthRegistry {
    var authService: AuthService?
    var instance: Auth?

    /** A cached instance is always bound to the service registered now. */
    ghost predicate Valid()
      reads this, instance
    {
      instance != null ==> authService != null && instance.service == authService
    }

    /** Before any registration there is neither a service nor an instance. */
    constructor ()
      ensures authService == null && instance == null
      ensures Valid()
    {
      authService := null;
      instance := null;
    }

    /**
     * `Auth.registerAuthService(s)`: registering the service already registered changes
     * nothing; a different service replaces it and drops the cached instance.
     */
    method RegisterAuthService(s: AuthService)
      modifies this
      ensures old(authService) == s ==> authService == old(authService) && instance == old(instance)
      ensures old(authService) != s ==> authService == s && instance == null
      ensures old(Valid()) ==> Valid()
    {
      if authService != s {
        authService := s;
        instance := null;
      }
    }

    /**
     * `Auth.instance`: the cached instance when there is one; otherwise a new instance,
     * subscribed once to the registered service and cached, or an error when no service
     * is registered.
     */
    method Instance() returns (r: Result<Auth, AuthError>)
      requires Valid()
      modifies this, authService
      ensures authService == old(authService)
      ensures Valid()
      ensures old(instance) != null ==>
        r == Success(old(instance)) && instance == old(instance) && unchanged(authService)
      ensures old(instance) == null && authService == null ==>
        r == Failure(NoAuthService) && instance == null
      ensures old(instance) == null && authService != null ==>
        && r.Success? && fresh(r.value) && instance == r.value
        && r.value.service == authService
        && r.value.subscribers == {} && r.value.notifications == []
        && authService.listeners == old(authService.listeners) + [r.value]
    {
      if instance != null {
        r := Success(instance);
      } else if authService == null {
        r := Failure(NoAuthService);
      } else {
        var a := new Auth(authService);
        instance := a;
        r := Success(a);
      }
    }

    /** Two consecutive reads of the instance give the same result. */
    method InstanceTwice() returns (first: Result<Auth, AuthError>, second: Result<Auth, AuthError>)
      requires Valid()
      modifies this, authService
      ensures first == second
    {
      first := Instance();
      second := Instance();
    }
  }
}
