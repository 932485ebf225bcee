/** When handling an event raises an exception, exactly. */
module StatusFailures {
  import opened Common
  import opened StatusEvents

  /** The event gets past the first tests of the handler: its device, if it names one, is known or its URI parses. */
  predicate Reached(env: Env, s: Service, e: Event) {
    && e.code != AUTO_CONFIGURE && e.code != DIAGNOSE_PRINTQUEUE
    && (e.uri == "" || e.uri in s.devices || env.valid(e.uri))
  }

  /**
   The four ways to fail: a user event without a URI; a rendered fax of the service's user, with its pipe, without a
   URI; a reply without its length; a reply of a device whose decoded status is again the code of a reply, which is
   handled without a length.
   */
  predicate Raises(env: Env, s: Service, e0: Event, args: Args) {
    var e := Translated(env, e0);
    && Reached(env, s, e0)
    && (|| (IsUserEvent(e.code) && e.uri == "")
        || (e.code == FAX_RENDER_COMPLETE && e.user == env.me && args != NoArgs && e.uri == "")
        || (e.code == UPDATE_REPLY && !args.Reply?)
        || (e.code == UPDATE_REPLY && args.Reply? && args.status.Some? && e.uri != ""
            && Translated(env, Event(e.uri, args.status.value, env.me, 0, "", 0)).code == UPDATE_REPLY))
  }

  /** Handling an event raises exactly then; no cache is ever made without a URI, since an empty one does not parse. */
  lemma RaisesIff(env: Env, s: Service, e: Event, args: Args)
    requires "" !in s.devices && !env.valid("")
    ensures !Handle(env, s, e, args).1 <==> Raises(env, s, e, args)
  {
    hide UserEvent, Other, FaxEvent, HandleReply;
    if Translated(env, e).code == UPDATE_REPLY && args.Reply? && args.status.Some? && Reached(env, s, e) {
      var s1 := if e.uri != "" then CheckDevice(env, s, e.uri).0 else s;
      ReplyRaisesIff(env, s1, Translated(env, e), args.status.value);
    }
  }

  lemma ReplyRaisesIff(env: Env, s: Service, e: Event, status: int)
    requires "" !in s.devices && !env.valid("") && (e.uri != "" ==> e.uri in s.devices)
    ensures !HandleReply(env, s, e, status).1
       <==> e.uri != "" && Translated(env, Event(e.uri, status, env.me, 0, "", 0)).code == UPDATE_REPLY
  {
    hide UserEvent, Other, FaxEvent;
  }

  // ---------------------------------------------------------------- inputs that fail

  const DEVICE := "hp:/usb/OfficeJet?serial=1"

  function ExampleEnv(): Env { Env(uri => uri == DEVICE, code => code, "user") }

  /** A user event without a URI, the first event of all. */
  lemma UserEventWithoutUri()
    ensures !Handle(ExampleEnv(), START, Event("", 1000, "user", 0, "", 0), NoArgs).1
  {
  }

  /** A reply that decodes to the code of a reply: the nested call finds no length. */
  lemma NestedReply()
    ensures !Handle(ExampleEnv(), START, Event(DEVICE, UPDATE_REPLY, "user", 0, "", 0), Reply("", Some(UPDATE_REPLY))).1
  {
    RaisesIff(ExampleEnv(), START, Event(DEVICE, UPDATE_REPLY, "user", 0, "", 0), Reply("", Some(UPDATE_REPLY)));
  }
}
