/** The WebSocket server's subscription registry (`SubscriptionManager.ts`): a
    forward map from user to channels and a reverse map from channel to users.
    The Redis SUBSCRIBE/UNSUBSCRIBE calls become flags on the result. */
module Subscriptions {
  import opened Seqs

  datatype Registry = Registry(forward: map<string, seq<string>>, reverse: map<string, seq<string>>)

  const Empty := Registry(map[], map[])

  /** `getSubscription`: the user's channels, or none for an unknown user. */
  function GetSubscription(r: Registry, user: string): (channels: seq<string>)
    ensures user !in r.forward ==> channels == []
    ensures user in r.forward ==> channels == r.forward[user]
  {
    if user in r.forward then r.forward[user] else []
  }

  /** The users on a channel, or none for a channel without an entry. */
  function Subscribers(r: Registry, channel: string): seq<string>
  {
    if channel in r.reverse then r.reverse[channel] else []
  }

  /** The two maps describe the same pairs, no stored channel entry is empty,
      and no list repeats an element. */
  ghost predicate Consistent(r: Registry)
  {
    && (forall u, c :: c in GetSubscription(r, u) <==> u in Subscribers(r, c))
    && (forall c :: c in r.reverse ==> |r.reverse[c]| > 0)
    && (forall u :: u in r.forward ==> Distinct(r.forward[u]))
    && (forall c :: c in r.reverse ==> Distinct(r.reverse[c]))
  }

  lemma EmptyConsistent()
    ensures Consistent(Empty)
  {
  }

  datatype Subscribed = Subscribed(registry: Registry, subscribeUpstream: bool)

  /** `subscribe`: nothing happens when the user already has the channel;
      otherwise the channel is appended to the user's list and the user to the
      channel's list, and Redis is subscribed when the channel's list has just
      reached length one. */
  function Subscribe(r: Registry, user: string, channel: string): (s: Subscribed)
    ensures channel in GetSubscription(r, user) ==> s == Subscribed(r, false)
    ensures channel !in GetSubscription(r, user) ==>
              && GetSubscription(s.registry, user) == GetSubscription(r, user) + [channel]
              && Subscribers(s.registry, channel) == Subscribers(r, channel) + [user]
    ensures forall u :: u != user ==> GetSubscription(s.registry, u) == GetSubscription(r, u)
    ensures forall c :: c != channel ==> Subscribers(s.registry, c) == Subscribers(r, c)
    ensures s.subscribeUpstream <==> channel !in GetSubscription(r, user) && |Subscribers(r, channel)| == 0
  {
    if channel in GetSubscription(r, user) then Subscribed(r, false)
    else
      var forward := r.forward[user := GetSubscription(r, user) + [channel]];
      var reverse := r.reverse[channel := Subscribers(r, channel) + [user]];
      Subscribed(Registry(forward, reverse), |reverse[channel]| == 1)
  }

  /** Subscribing keeps the two maps in step. */
  lemma SubscribeConsistent(r: Registry, user: string, channel: string)
    requires Consistent(r)
    ensures Consistent(Subscribe(r, user, channel).registry)
  {
    var s := Subscribe(r, user, channel).registry;
    if channel !in GetSubscription(r, user) {
      assert user !in Subscribers(r, channel);
      forall u, c
        ensures c in GetSubscription(s, u) <==> u in Subscribers(s, c)
      {
        if u == user && c == channel {
        } else if u == user {
          assert GetSubscription(s, u) == GetSubscription(r, u) + [channel];
        } else if c == channel {
          assert Subscribers(s, c) == Subscribers(r, c) + [user];
        }
      }
    }
  }

  /** Subscribing twice is subscribing once. */
  lemma SubscribeIdempotent(r: Registry, user: string, channel: string)
    ensures var once := Subscribe(r, user, channel).registry;
            Subscribe(once, user, channel) == Subscribed(once, false)
  {
  }

  /** On a consistent registry Redis is subscribed exactly when the channel had
      no entry before. */
  lemma SubscribeUpstreamFirst(r: Registry, user: string, channel: string)
    requires Consistent(r)
    ensures Subscribe(r, user, channel).subscribeUpstream <==> channel !in r.reverse
  {
    if channel !in r.reverse {
      assert user !in Subscribers(r, channel);
    }
  }

  datatype Unsubscribed = Unsubscribed(registry: Registry, unsubscribeUpstream: bool)

  /** `unsubscribe`: drop the channel from the user's list (when the user has
      one) and the user from the channel's list (when the channel has one);
      a channel left with no users loses its entry and Redis is unsubscribed. */
  function Unsubscribe(r: Registry, user: string, channel: string): (s: Unsubscribed)
    ensures GetSubscription(s.registry, user) == Without(GetSubscription(r, user), channel)
    ensures Subscribers(s.registry, channel) == Without(Subscribers(r, channel), user)
    ensures forall u :: u != user ==> GetSubscription(s.registry, u) == GetSubscription(r, u)
    ensures forall c :: c != channel ==> Subscribers(s.registry, c) == Subscribers(r, c)
    ensures s.unsubscribeUpstream <==>
              channel in r.reverse && forall u :: u in r.reverse[channel] ==> u == user
    ensures s.unsubscribeUpstream ==> channel !in s.registry.reverse
  {
    var forward := if user in r.forward then r.forward[user := Without(r.forward[user], channel)] else r.forward;
    if channel in r.reverse then
      var rest := Without(r.reverse[channel], user);
      if |rest| == 0 then Unsubscribed(Registry(forward, r.reverse - {channel}), true)
      else
        assert rest[0] in rest;
        Unsubscribed(Registry(forward, r.reverse[channel := rest]), false)
    else
      Unsubscribed(Registry(forward, r.reverse), false)
  }

  /** Unsubscribing keeps the two maps in step. */
  lemma UnsubscribeConsistent(r: Registry, user: string, channel: string)
    requires Consistent(r)
    ensures Consistent(Unsubscribe(r, user, channel).registry)
  {
    var s := Unsubscribe(r, user, channel).registry;
    if user in r.forward {
      WithoutDistinct(r.forward[user], channel);
    }
    if channel in r.reverse {
      WithoutDistinct(r.reverse[channel], user);
    }
    forall u, c
      ensures c in GetSubscription(s, u) <==> u in Subscribers(s, c)
    {
      if u == user && c == channel {
      } else if u == user {
        assert Subscribers(s, c) == Subscribers(r, c);
      } else if c == channel {
        assert GetSubscription(s, u) == GetSubscription(r, u);
      }
    }
  }

  /** On a consistent registry Redis is unsubscribed exactly when the user was
      the channel's only subscriber. */
  lemma UnsubscribeUpstreamLast(r: Registry, user: string, channel: string)
    requires Consistent(r)
    ensures Unsubscribe(r, user, channel).unsubscribeUpstream <==> Subscribers(r, channel) == [user]
  {
    if Unsubscribe(r, user, channel).unsubscribeUpstream {
      var s := r.reverse[channel];
      assert forall i :: 0 <= i < |s| ==> s[i] in s;
      DistinctConstant(s, user);
    }
  }

  /** A new subscription taken back leaves every list as it was, and the two
      Redis calls pair up. */
  lemma SubscribeThenUnsubscribe(r: Registry, user: string, channel: string)
    requires Consistent(r)
    requires channel !in GetSubscription(r, user)
    ensures var s := Subscribe(r, user, channel);
            var t := Unsubscribe(s.registry, user, channel);
            && (forall u :: GetSubscription(t.registry, u) == GetSubscription(r, u))
            && (forall c :: Subscribers(t.registry, c) == Subscribers(r, c))
            && t.unsubscribeUpstream == s.subscribeUpstream
  {
    var s := Subscribe(r, user, channel);
    var t := Unsubscribe(s.registry, user, channel);
    assert user !in Subscribers(r, channel);
    WithoutAppended(GetSubscription(r, user), channel);
    WithoutAppended(Subscribers(r, channel), user);
    if t.unsubscribeUpstream {
      assert Subscribers(s.registry, channel) == [user] by {
        UnsubscribeUpstreamLast(s.registry, user, channel);
        SubscribeConsistent(r, user, channel);
      }
    }
  }

  datatype Left = Left(registry: Registry, unsubscribedUpstream: seq<string>)

  /** `unsubscribe(user, c)` for each `c` of `channels` in turn, collecting the
      channels Redis was unsubscribed from. */
  function UnsubscribeAll(r: Registry, user: string, channels: seq<string>): (l: Left)
    decreases |channels|
  {
    if |channels| == 0 then Left(r, [])
    else
      var first := Unsubscribe(r, user, channels[0]);
      var rest := UnsubscribeAll(first.registry, user, channels[1..]);
      Left(rest.registry, (if first.unsubscribeUpstream then [channels[0]] else []) + rest.unsubscribedUpstream)
  }

  /** `userLeft`: unsubscribe the user from every channel on the list it had
      when it left. */
  function UserLeft(r: Registry, user: string): Left
  {
    UnsubscribeAll(r, user, GetSubscription(r, user))
  }

  /** Unsubscribing one user from a list of channels leaves every other user's
      list alone. */
  lemma {:induction false} UnsubscribeAllFrame(r: Registry, user: string, channels: seq<string>)
    ensures forall u :: u != user ==> GetSubscription(UnsubscribeAll(r, user, channels).registry, u) == GetSubscription(r, u)
    decreases |channels|
  {
    if |channels| > 0 {
      UnsubscribeAllFrame(Unsubscribe(r, user, channels[0]).registry, user, channels[1..]);
    }
  }

  /** Unsubscribing from a list of channels keeps the registry consistent. */
  lemma {:induction false} UnsubscribeAllConsistent(r: Registry, user: string, channels: seq<string>)
    requires Consistent(r)
    ensures Consistent(UnsubscribeAll(r, user, channels).registry)
    decreases |channels|
  {
    if |channels| > 0 {
      UnsubscribeConsistent(r, user, channels[0]);
      UnsubscribeAllConsistent(Unsubscribe(r, user, channels[0]).registry, user, channels[1..]);
    }
  }

  /** Unsubscribing from a list of channels leaves the user on no channel of the
      list, and puts it on no channel it was not on. */
  lemma {:induction false} UnsubscribeAllLeaves(r: Registry, user: string, channels: seq<string>)
    ensures var s := UnsubscribeAll(r, user, channels).registry;
            forall c :: user in Subscribers(s, c) ==> user in Subscribers(r, c) && c !in channels
    decreases |channels|
  {
    if |channels| > 0 {
      var first := Unsubscribe(r, user, channels[0]);
      UnsubscribeAllLeaves(first.registry, user, channels[1..]);
      var s := UnsubscribeAll(r, user, channels).registry;
      assert s == UnsubscribeAll(first.registry, user, channels[1..]).registry;
      assert channels == [channels[0]] + channels[1..];
      forall c | user in Subscribers(s, c)
        ensures user in Subscribers(r, c) && c !in channels
      {
        assert user in Subscribers(first.registry, c) && c !in channels[1..];
      }
    }
  }

  /** Redis is unsubscribed only from channels of the list, and only from
      channels left with no subscriber. */
  lemma {:induction false} UnsubscribeAllUpstream(r: Registry, user: string, channels: seq<string>)
    ensures var l := UnsubscribeAll(r, user, channels);
            forall c :: c in l.unsubscribedUpstream ==> c in channels && forall u :: u !in Subscribers(l.registry, c)
    decreases |channels|
  {
    if |channels| > 0 {
      var first := Unsubscribe(r, user, channels[0]);
      UnsubscribeAllUpstream(first.registry, user, channels[1..]);
      var l := UnsubscribeAll(r, user, channels);
      var rest := UnsubscribeAll(first.registry, user, channels[1..]);
      if first.unsubscribeUpstream {
        assert forall u :: u !in Subscribers(first.registry, channels[0]);
        UnsubscribeAllKeepsEmpty(first.registry, user, channels[1..], channels[0]);
      }
      assert channels == [channels[0]] + channels[1..];
      assert l.registry == rest.registry;
      forall c | c in l.unsubscribedUpstream
        ensures c in channels && forall u :: u !in Subscribers(l.registry, c)
      {
        if c in rest.unsubscribedUpstream {
          assert c in channels[1..];
          assert forall u :: u !in Subscribers(rest.registry, c);
        } else {
          assert first.unsubscribeUpstream && c == channels[0];
          assert forall u :: u !in Subscribers(rest.registry, c);
        }
      }
    }
  }

  /** A channel with no subscriber stays without one while a user unsubscribes. */
  lemma {:induction false} UnsubscribeAllKeepsEmpty(r: Registry, user: string, channels: seq<string>, c: string)
    requires forall u :: u !in Subscribers(r, c)
    ensures forall u :: u !in Subscribers(UnsubscribeAll(r, user, channels).registry, c)
    decreases |channels|
  {
    if |channels| > 0 {
      UnsubscribeAllKeepsEmpty(Unsubscribe(r, user, channels[0]).registry, user, channels[1..], c);
    }
  }

  /** After `userLeft` on a consistent registry the user is on no channel and
      has no channels, the registry is still consistent, and every other user
      keeps its channels. */
  lemma UserLeftGone(r: Registry, user: string)
    requires Consistent(r)
    ensures var s := UserLeft(r, user).registry;
            && Consistent(s)
            && (forall c :: user !in Subscribers(s, c))
            && (forall c :: c !in GetSubscription(s, user))
            && (forall u :: u != user ==> GetSubscription(s, u) == GetSubscription(r, u))
  {
    var s := UserLeft(r, user).registry;
    UnsubscribeAllConsistent(r, user, GetSubscription(r, user));
    UnsubscribeAllLeaves(r, user, GetSubscription(r, user));
    UnsubscribeAllFrame(r, user, GetSubscription(r, user));
    var left := GetSubscription(s, user);
    assert forall c :: c in left ==> user in Subscribers(s, c) && c in GetSubscription(r, user);
  }
}
