/** The configuration checks `SendEmailMessage` makes before opening an SMTP
    connection: host, then port, then user name, then password, each one
    failing with its own `InvalidOperationException` message. */
module Validation {
  import opened Wrappers
  import opened Text
  import opened Int32Text
  import opened EmailModel

  const HostMissing := "EmailHost configuration is missing"
  const PortInvalid := "Invalid Port configuration"
  const UsernameMissing := "EmailUsername configuration is missing"
  const PasswordMissing := "EmailPassword configuration is missing"

  /** Connection settings that passed every check. */
  datatype Settings = Settings(host: string, port: int, username: string, password: string)

  /** The port text parses as a 32-bit integer that is strictly positive. */
  predicate PortAccepted(port: Option<string>) {
    var p := ParseInt32(port);
    p.Some? && p.value > 0
  }

  function ValidateSettings(c: Config): (r: Result<Settings, Error>)
    ensures r == Failure(InvalidOperation(HostMissing))
            <==> IsNullOrWhiteSpace(c.host)
    ensures r == Failure(InvalidOperation(PortInvalid))
            <==> !IsNullOrWhiteSpace(c.host) && !PortAccepted(c.port)
    ensures r == Failure(InvalidOperation(UsernameMissing))
            <==> !IsNullOrWhiteSpace(c.host) && PortAccepted(c.port) && IsNullOrWhiteSpace(c.username)
    ensures r == Failure(InvalidOperation(PasswordMissing))
            <==> !IsNullOrWhiteSpace(c.host) && PortAccepted(c.port) && !IsNullOrWhiteSpace(c.username)
                 && IsNullOrWhiteSpace(c.password)
    ensures r.Success?
            <==> !IsNullOrWhiteSpace(c.host) && PortAccepted(c.port) && !IsNullOrWhiteSpace(c.username)
                 && !IsNullOrWhiteSpace(c.password)
    ensures r.Success? ==>
              && c.host == Some(r.value.host)
              && ParseInt32(c.port) == Some(r.value.port) && r.value.port > 0
              && c.username == Some(r.value.username)
              && c.password == Some(r.value.password)
  {
    if IsNullOrWhiteSpace(c.host) then Failure(InvalidOperation(HostMissing))
    else if !PortAccepted(c.port) then Failure(InvalidOperation(PortInvalid))
    else if IsNullOrWhiteSpace(c.username) then Failure(InvalidOperation(UsernameMissing))
    else if IsNullOrWhiteSpace(c.password) then Failure(InvalidOperation(PasswordMissing))
    else Success(Settings(c.host.value, ParseInt32(c.port).value, c.username.value, c.password.value))
  }

  /** A port written as a decimal integer is accepted exactly when it lies in
      1 .. 2^31 - 1: zero, negative numbers and numbers too large for an
      `int` are all "Invalid Port configuration". */
  lemma PortAcceptedRender(n: int)
    ensures PortAccepted(Some(Render(n))) <==> 0 < n <= Int32Max
  {
    ParseRender(n);
  }

  /** The checks in the order `SendEmailMessage` makes them, as a table:
      whether each one passes, and the message it fails with. */
  function Checks(c: Config): seq<bool> {
    [!IsNullOrWhiteSpace(c.host), PortAccepted(c.port),
     !IsNullOrWhiteSpace(c.username), !IsNullOrWhiteSpace(c.password)]
  }

  const CheckMessages: seq<string> := [HostMissing, PortInvalid, UsernameMissing, PasswordMissing]

  /** Index of the first `false` in `bs`, or `|bs|` when there is none. */
  function FirstFailing(bs: seq<bool>): (k: nat)
    ensures k <= |bs|
    ensures forall i :: 0 <= i < k ==> bs[i]
    ensures k < |bs| ==> !bs[k]
  {
    if |bs| == 0 then 0
    else if !bs[0] then 0
    else 1 + FirstFailing(bs[1..])
  }

  /** Validation agrees with the table: it fails exactly when some check
      fails, and then with the message of the first failing check. */
  lemma ValidateMatchesTable(c: Config)
    ensures var k := FirstFailing(Checks(c));
            && (ValidateSettings(c).Success? <==> k == 4)
            && (k < 4 ==> ValidateSettings(c) == Failure(InvalidOperation(CheckMessages[k])))
  {
    var bs := Checks(c);
    var k := FirstFailing(bs);
    if k == 0 {
      assert !bs[0];
    } else if k == 1 {
      assert bs[0] && !bs[1];
    } else if k == 2 {
      assert bs[0] && bs[1] && !bs[2];
    } else if k == 3 {
      assert bs[0] && bs[1] && bs[2] && !bs[3];
    } else {
      assert bs[0] && bs[1] && bs[2] && bs[3];
    }
  }

  /** The configuration keys in the order they are checked. */
  function Field(c: Config, i: nat): Option<string>
    requires i < 4
  {
    if i == 0 then c.host else if i == 1 then c.port else if i == 2 then c.username else c.password
  }

  /** The first failing check alone decides the outcome: a configuration
      that agrees on every key up to and including that check fails in the
      same way, whatever its later keys hold. */
  lemma FirstFailureDecides(c: Config, c': Config)
    requires FirstFailing(Checks(c)) < 4
    requires forall i :: 0 <= i <= FirstFailing(Checks(c)) ==> Field(c', i) == Field(c, i)
    ensures ValidateSettings(c') == ValidateSettings(c)
  {
    var k := FirstFailing(Checks(c));
    ValidateMatchesTable(c);
    ValidateMatchesTable(c');
    forall i | 0 <= i <= k
      ensures Checks(c')[i] == Checks(c)[i]
    {
      assert Field(c', i) == Field(c, i);
    }
    assert FirstFailing(Checks(c')) == k;
  }
}
