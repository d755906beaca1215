/** Bubble notifications: a name, a domain and an optional payload
    (ModelsTreeKit/Classes/Bubble/BubbleNotification.swift). */
module Bubbles {
  import opened Wrappers
  import opened SwiftInt

  /** `BubbleNotificationName` is a protocol; `typeName` is the conforming type. */
  datatype NotificationName = NotificationName(typeName: string, rawValue: string)

  datatype BubbleNotification = BubbleNotification(name: NotificationName, domain: string, payload: Option<Payload>)

  /** The source's `==` on notification names: raw values only. */
  predicate NameEqual(a: NotificationName, b: NotificationName)
  {
    a.rawValue == b.rawValue
  }

  lemma NameEqualIgnoresTypeName(a: NotificationName, b: NotificationName)
    ensures NameEqual(a, b) <==> a.(typeName := "") == b.(typeName := "")
  {
  }

  /** `init(name:domain:object:)`; leaving out the object (`payload` here) gives `nil`. */
  function Make(name: NotificationName, domain: string, payload: Option<Payload> := None): BubbleNotification
  {
    BubbleNotification(name, domain, payload)
  }

  lemma MakeWithoutObject(name: NotificationName, domain: string)
    ensures Make(name, domain).payload == None
    ensures Make(name, domain).name == name && Make(name, domain).domain == domain
  {
  }

  /** The source's `==` on notifications: names and domains; the payload is ignored. */
  predicate Equal(a: BubbleNotification, b: BubbleNotification)
  {
    NameEqual(a.name, b.name) && a.domain == b.domain
  }

  lemma EqualIsEquivalence(a: BubbleNotification, b: BubbleNotification, c: BubbleNotification)
    ensures Equal(a, a)
    ensures Equal(a, b) ==> Equal(b, a)
    ensures Equal(a, b) && Equal(b, c) ==> Equal(a, c)
  {
  }

  lemma EqualIgnoresPayload(a: BubbleNotification, b: BubbleNotification, payload: Option<Payload>)
    ensures Equal(a, b) <==> Equal(a, b.(payload := payload))
  {
  }

  /** `hashValue`: `(name.rawValue.hashValue &+ name.rawValue.hashValue).hashValue`,
      with the string hash as the parameter `strHash` and `Int.hashValue` the identity. */
  function HashValue(n: BubbleNotification, strHash: string -> Int64): Int64
  {
    WrappingAdd(strHash(n.name.rawValue), strHash(n.name.rawValue))
  }

  /** The hash reads the name's raw value only: neither the domain nor the payload. */
  lemma HashDependsOnNameOnly(a: BubbleNotification, b: BubbleNotification, strHash: string -> Int64)
    requires a.name.rawValue == b.name.rawValue
    ensures HashValue(a, strHash) == HashValue(b, strHash)
  {
  }

  /** So equal notifications hash equal, as `Hashable` requires. */
  lemma EqualNotificationsHashEqual(a: BubbleNotification, b: BubbleNotification, strHash: string -> Int64)
    requires Equal(a, b)
    ensures HashValue(a, strHash) == HashValue(b, strHash)
  {
    HashDependsOnNameOnly(a, b, strHash);
  }
}
