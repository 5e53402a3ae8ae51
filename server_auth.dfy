/**
 * `ServerAuth`: the server-side authentication facade, with the same registry of a
 * service and a lazily created instance as `Auth`, but without the registration check.
 */
module ServerAuthentication {
  /** A concrete server auth service. */
  class ServerAuthService {
    constructor ()
    {
    }
  }

  class ServerAuth {
    /** The protected constructor: it needs no registered service. */
    constructor ()
    {
    }
  }

  /** The static state of `ServerAuth`: the registered service and the cached instance. */
  class ServerAuthRegistry {
    var authService: ServerAuthService?
    var instance: ServerAuth?

    constructor ()
      ensures authService == null && instance == null
    {
      authService := null;
      instance := null;
    }

    /**
     * `ServerAuth.registerserverAuthService(s)`: registering the service already registered
     * changes nothing; a different service replaces it and drops the cached instance.
     */
    method RegisterServerAuthService(s: ServerAuthService)
      modifies this
      ensures old(authService) == s ==> authService == old(authService) && instance == old(instance)
      ensures old(authService) != s ==> authService == s && instance == null
    {
      if authService != s {
        authService := s;
        instance := null;
      }
    }

    /**
     * `ServerAuth.instance`: the cached instance when there is one, otherwise a new one that
     * is cached; it succeeds whether or not a service is registered.
     */
    method Instance() returns (r: ServerAuth)
      modifies this
      ensures authService == old(authService)
      ensures old(instance) != null ==> r == old(instance)
      ensures old(instance) == null ==> fresh(r)
      ensures instance == r
    {
      if instance != null {
        r := instance;
      } else {
        r := new ServerAuth();
        instance := r;
      }
    }

    /** Two consecutive reads of the instance give the same result. */
    method InstanceTwice() returns (first: ServerAuth, second: ServerAuth)
      modifies this
      ensures first == second
    {
      first := Instance();
      second := Instance();
    }
  }
}
