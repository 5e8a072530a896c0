/** SesionActual: the record of who is logged in, its administrator test and
    the log-out reset. */
module Sessions {
  import opened Common

  /** The four session fields as one value. */
  datatype SessionState = SessionState(idUsuario: Int32, nombreUsuario: string, nombre: string, rol: string)

  /** The state before any login and after every logout. */
  const Anonymous: SessionState := SessionState(0, "", "", "")

  /** ASCII upper-casing of one character. */
  function UpperAscii(c: char): char {
    if 'a' <= c <= 'z' then (c as int - 32) as char else c
  }

  function ToUpperAscii(s: string): string {
    seq(|s|, i requires 0 <= i < |s| => UpperAscii(s[i]))
  }

  /** The role test of EsAdministrador: the upper-cased role is "ADMIN". */
  predicate IsAdminRole(rol: string) {
    ToUpperAscii(rol) == "ADMIN"
  }

  /** Reference reading of the role test: five letters spelling "admin",
      each in either case. */
  predicate SpellsAdmin(rol: string) {
    |rol| == 5 && forall i :: 0 <= i < 5 ==> rol[i] == "ADMIN"[i] || rol[i] == "admin"[i]
  }

  lemma AdminRoleSpelling(rol: string)
    ensures IsAdminRole(rol) <==> SpellsAdmin(rol)
  {
  }

  /** The seeded role "Admin" and "admin" are administrators; "Usuario" and
      the empty role are not. */
  lemma AdminRoleExamples()
    ensures IsAdminRole("Admin") && IsAdminRole("admin") && IsAdminRole("ADMIN")
    ensures !IsAdminRole("Usuario") && !IsAdminRole("")
  {
  }

  /** The process-wide session: one instance stands for the static class. */
  class SesionActual {
    var idUsuario: Int32
    var nombreUsuario: string
    var nombre: string
    var rol: string

    function State(): SessionState
      reads this
    {
      SessionState(idUsuario, nombreUsuario, nombre, rol)
    }

    /** The property initialisers: id 0 and empty strings. */
    constructor ()
      ensures State() == Anonymous
      ensures !EsAdministrador()
    {
      idUsuario := 0;
      nombreUsuario := "";
      nombre := "";
      rol := "";
    }

    /** EsAdministrador: the role, ignoring case, is "admin"; it reads no
        field but the role. */
    function EsAdministrador(): (admin: bool)
      reads this`rol
      ensures admin <==> SpellsAdmin(rol)
    {
      AdminRoleSpelling(rol);
      IsAdminRole(rol)
    }

    method SetIdUsuario(v: Int32)
      modifies this`idUsuario
      ensures State() == old(State()).(idUsuario := v)
      ensures EsAdministrador() == old(EsAdministrador())
    {
      idUsuario := v;
    }

    method SetNombreUsuario(v: string)
      modifies this`nombreUsuario
      ensures State() == old(State()).(nombreUsuario := v)
      ensures EsAdministrador() == old(EsAdministrador())
    {
      nombreUsuario := v;
    }

    method SetNombre(v: string)
      modifies this`nombre
      ensures State() == old(State()).(nombre := v)
      ensures EsAdministrador() == old(EsAdministrador())
    {
      nombre := v;
    }

    method SetRol(v: string)
      modifies this`rol
      ensures State() == old(State()).(rol := v)
      ensures EsAdministrador() <==> IsAdminRole(v)
    {
      rol := v;
    }

    /** CerrarSesion: every field back to its initial value, whatever the
        session was; so it is idempotent and leaves no administrator. */
    method CerrarSesion()
      modifies this
      ensures State() == Anonymous
      ensures !EsAdministrador()
    {
      idUsuario := 0;
      nombreUsuario := "";
      nombre := "";
      rol := "";
    }
  }

  /** The login handler's four assignments after a successful Verify: the
      session then holds exactly the user's fields, and it is an
      administrator session exactly when the user's role is. */
  method IniciarSesion(s: SesionActual, id: Int32, usuario: string, nombre: string, rol: string)
    modifies s
    ensures s.State() == SessionState(id, usuario, nombre, rol)
    ensures s.EsAdministrador() <==> IsAdminRole(rol)
  {
    s.SetIdUsuario(id);
    s.SetNombreUsuario(usuario);
    s.SetNombre(nombre);
    s.SetRol(rol);
  }

  /** Log in as the seeded administrator, then log out twice. */
  method AdminLoginLogout() returns (s: SesionActual)
    ensures s.State() == Anonymous
  {
    s := new SesionActual();
    assert !s.EsAdministrador();
    IniciarSesion(s, 1, "admin", "Administrator", "Admin");
    AdminRoleExamples();
    assert s.EsAdministrador();
    s.CerrarSesion();
    assert !s.EsAdministrador() && s.nombreUsuario == "";
    var once := s.State();
    s.CerrarSesion();
    assert s.State() == once;
  }
}
