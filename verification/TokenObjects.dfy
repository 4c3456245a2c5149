/** The `Token` interface over objects: the in-process token or the remote one (crypto/crypto.go). */
module TokenObjects {
  import opened Bytes
  import opened Derivation
  import opened TeeToken
  import opened Tokens

  datatype Token = Dumb(dumb: DumbToken) | Tee(tee: TEEToken) {

    /** What the token computes. */
    ghost function Suite(): TokenSuite {
      match this
      case Dumb(d) => LocalSuite(d.lib)
      case Tee(t) => TeeSuite(t.lib, t.sha256)
    }

    ghost function Self(): object {
      match this
      case Dumb(d) => d
      case Tee(t) => t
    }

    /** What using the token may change besides itself. */
    ghost function Monitors(): set<object> {
      match this
      case Dumb(_) => {}
      case Tee(t) => {t.monitor}
    }

    ghost predicate Ready()
      reads Monitors()
    {
      Tee? ==> tee.Ready()
    }

    /** The secure monitor has panicked. */
    predicate Stopped()
      reads Monitors()
    {
      Tee? && tee.monitor.faulted
    }

    /** A request that the token cannot serve stops the monitor instead of coming back as an error. */
    ghost predicate Loud() {
      Tee? && !tee.monitor.cfg.fatalExits
    }

    ghost predicate BoundTo(path: DerivationPath)
      reads Self()
    {
      match this
      case Dumb(d) => d.privKey.Some? && d.privKey == KeyAt(d.lib, path)
      case Tee(t) => t.path == path
    }

    method Clone() returns (t: Token)
      ensures fresh(t.Self())
      ensures t.Suite() == Suite() && t.Monitors() == Monitors() && t.Dumb? == Dumb?
      ensures Tee? ==> t.tee.monitor == tee.monitor && t.tee.lib == tee.lib
    {
      match this {
        case Dumb(d) =>
          var c := d.Clone();
          t := Dumb(c);
        case Tee(r) =>
          var c := r.Clone();
          t := Tee(c);
      }
    }

    method Initialize(path: DerivationPath) returns (ok: bool)
      modifies Self()
      ensures ok == Suite().initialize(path).Some?
      ensures ok ==> BoundTo(path)
    {
      match this {
        case Dumb(d) =>
          ok := d.Initialize(path);
        case Tee(r) =>
          r.Initialize(path);
          ok := true;
      }
    }

    method Sign(data: seq<byte>, ghost path: DerivationPath) returns (sig: Option<seq<byte>>)
      requires Ready() && BoundTo(path) && Suite().initialize(path).Some?
      modifies Monitors()
      ensures Stopped() <==> Loud() && Suite().sign(Suite().initialize(path).value, data).None?
      ensures !Stopped() ==> Ready() && sig == Suite().sign(Suite().initialize(path).value, data)
    {
      match this {
        case Dumb(d) =>
          sig := d.Sign(data);
        case Tee(r) =>
          sig := r.Sign(data);
      }
    }

    method PublicKey(ghost path: DerivationPath) returns (key: Option<seq<byte>>)
      requires Ready() && BoundTo(path) && Suite().initialize(path).Some?
      modifies Monitors()
      ensures Stopped() <==> Loud() && Suite().publicKey(Suite().initialize(path).value).None?
      ensures !Stopped() ==> Ready() && key == Suite().publicKey(Suite().initialize(path).value)
    {
      match this {
        case Dumb(d) =>
          key := d.PublicKey();
        case Tee(r) =>
          key := r.PublicKey();
      }
    }
  }
}
