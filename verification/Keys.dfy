/** The key families that share the one Redis keyspace, each a prefix, a colon and an id. */
module Keys {
  import opened Text

  datatype Family =
    | DistributedLock
    | Throttle
    | RegistrationUser
    | OtpAttempts
    | RegistrationRate
    | Speeding
    | FenceExit
    | FenceEntry
    | Deviation
    | DeviceLimit
    | LiveStream

  function Prefix(f: Family): string {
    match f
    case DistributedLock => "distributed-lock"
    case Throttle => "throttle"
    case RegistrationUser => "registration_user"
    case OtpAttempts => "registration_user_otp_attempts"
    case RegistrationRate => "registration_rate_limit"
    case Speeding => "speeding"
    case FenceExit => "geofence_exit"
    case FenceEntry => "geofence_entry"
    case Deviation => "trajectory_deviation"
    case DeviceLimit => "device"
    case LiveStream => "live-stream"
  }

  function Key(f: Family, id: string): string {
    Prefix(f) + [':'] + id
  }

  lemma PrefixesDiffer(f: Family, g: Family)
    ensures Prefix(f) == Prefix(g) ==> f == g
    ensures ':' !in Prefix(f)
  {
    assert |Prefix(DistributedLock)| == 16 && |Prefix(Throttle)| == 8 && |Prefix(RegistrationUser)| == 17;
    assert |Prefix(OtpAttempts)| == 30 && |Prefix(RegistrationRate)| == 23 && |Prefix(Speeding)| == 8;
    assert |Prefix(FenceExit)| == 13 && |Prefix(FenceEntry)| == 14 && |Prefix(Deviation)| == 20;
    assert |Prefix(DeviceLimit)| == 6 && |Prefix(LiveStream)| == 11;
    assert Prefix(Throttle)[0] == 't' && Prefix(Speeding)[0] == 's';
  }

  /** Keys of different families never coincide, and within a family the id decides. */
  lemma KeysNeverCollide(f: Family, a: string, g: Family, b: string)
    ensures Key(f, a) == Key(g, b) <==> f == g && a == b
  {
    if Key(f, a) == Key(g, b) {
      PrefixesDiffer(f, g);
      PrefixesDiffer(g, f);
      SplitFirst(Prefix(f), ':', a);
      SplitFirst(Prefix(g), ':', b);
      assert Prefix(f) == Split(Key(f, a), ':')[0] == Prefix(g);
      var n := |Prefix(f)| + 1;
      assert Key(f, a)[n..] == a && Key(g, b)[n..] == b;
    }
  }

  /** What is stored under one id never decides what is read under another. */
  lemma EntriesAreIndependent<V>(store: map<string, V>, f: Family, a: string, b: string, v: V)
    requires a != b
    ensures Key(f, a) in store[Key(f, b) := v] <==> Key(f, a) in store
    ensures Key(f, a) in store ==> store[Key(f, b) := v][Key(f, a)] == store[Key(f, a)]
    ensures Key(f, a) in store - {Key(f, b)} <==> Key(f, a) in store
  {
    KeysNeverCollide(f, a, f, b);
  }

  /** The keys as the code writes them. */
  lemma KeyTexts(f: Family, id: string)
    ensures Key(f, id) == (match f
                           case DistributedLock => "distributed-lock:"
                           case Throttle => "throttle:"
                           case RegistrationUser => "registration_user:"
                           case OtpAttempts => "registration_user_otp_attempts:"
                           case RegistrationRate => "registration_rate_limit:"
                           case Speeding => "speeding:"
                           case FenceExit => "geofence_exit:"
                           case FenceEntry => "geofence_entry:"
                           case Deviation => "trajectory_deviation:"
                           case DeviceLimit => "device:"
                           case LiveStream => "live-stream:") + id
  {
  }
}
