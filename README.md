# Firebase push-messaging demo: device-token formatting and notification handlers

This project models the logic of the application delegate of the FirebasePushMessaging
demo app. The delegate does two things worth stating precisely:

- **Device-token formatting.** When APNs issues a device token (a byte sequence), the
  delegate builds `readableToken` by appending every byte as `%02.2hhx`: two lowercase,
  zero-padded hexadecimal digits, high nibble first. That is Base16 (section 8 of
  RFC 4648) with the lowercase alphabet. Module `DeviceToken` gives the pure
  specification `Hex`, the loop `FormatDeviceToken` proved equal to it, and a decoder
  `HexDecode` (not in the app) that serves as its inverse. The lemmas prove the length,
  the alphabet, the byte-by-byte layout and injectivity.
- **Notification-center handlers.** The foreground handler always answers
  {banner, list, sound}. The tap handler posts the notification's `userInfo` unchanged
  under the name `didReceiveRemoteNotification`, then calls its completion handler.
  Module `Notifications` records these effects as events appended to a log held by the
  `AppDelegate` class. `Trace` gives the log a whole run of callbacks produces. The
  lemmas prove three things for every run: each callback completes exactly once, the
  posts are exactly the tapped payloads in order, and each post comes right before its
  completion.

Files: `wrappers.dfy` (Option), `device_token.dfy`, `notifications.dfy`.

## Model

| member | source | states |
|---|---|---|
| `DeviceToken.FormatDeviceToken` | FirebasePushMessaging/FirebasePushMessagingApp.swift:58-62 | the loop that starts from `""` and appends each byte's two digits produces exactly `Hex(deviceToken)` |
| `DeviceToken.Hex` | FirebasePushMessaging/FirebasePushMessagingApp.swift:59-62 | the readable token has exactly two characters per byte, so the empty token gives `""` |
| `DeviceToken.ByteHex` | FirebasePushMessaging/FirebasePushMessagingApp.swift:61 | `%02.2hhx` on one byte gives two lowercase hex digits whose base-16 value, high digit first, is the byte |
| `DeviceToken.Digit` | FirebasePushMessaging/FirebasePushMessagingApp.swift:61 | a nibble's digit is in `0-9a-f` and reads back as that nibble |
| `DeviceToken.DigitValue` | FirebasePushMessaging/FirebasePushMessagingApp.swift:61 | a character has a digit value exactly when it is in `0-9a-f`, and that value is below 16 |
| `DeviceToken.ZeroPadded` | FirebasePushMessaging/FirebasePushMessagingApp.swift:61 | `0x05` gives `"05"`, `0x00` gives `"00"`, `0xFF` gives `"ff"`: always two digits, zero-padded, lowercase |
| `DeviceToken.Examples` | FirebasePushMessaging/FirebasePushMessagingApp.swift:59-62 | the token `[0x1A, 0x2B]` reads `"1a2b"` and the empty token reads `""` |
| `DeviceToken.HexConcat` | FirebasePushMessaging/FirebasePushMessagingApp.swift:60-61 | formatting a concatenation formats the two parts one after the other, so byte order is kept |
| `DeviceToken.HexAt` | FirebasePushMessaging/FirebasePushMessagingApp.swift:60-61 | characters `2i` and `2i+1` of the readable token are the high and the low digit of byte `i` |
| `DeviceToken.HexAlphabet` | FirebasePushMessaging/FirebasePushMessagingApp.swift:61 | every character of a readable token is in `0-9a-f`, so none is upper case |
| `DeviceToken.PairValue` | FirebasePushMessaging/FirebasePushMessagingApp.swift:61 | a pair of characters spells a byte exactly when both are lowercase hex digits, the first one being the high nibble |
| `DeviceToken.HexDecode` | FirebasePushMessaging/FirebasePushMessagingApp.swift:60-61 | a string decodes exactly when it has even length and only lowercase hex digits, and it then gives half as many bytes as it has characters |
| `DeviceToken.DecodeHex` | FirebasePushMessaging/FirebasePushMessagingApp.swift:60-61 | decoding a readable token gives back the token's bytes |
| `DeviceToken.HexOfDecode` | FirebasePushMessaging/FirebasePushMessagingApp.swift:60-61 | any string that decodes is the readable token of the bytes it decodes to |
| `DeviceToken.HexInjective` | FirebasePushMessaging/FirebasePushMessagingApp.swift:60-61 | two tokens with the same readable token are equal |
| `DeviceToken.DigitOfValue` | FirebasePushMessaging/FirebasePushMessagingApp.swift:61 | every lowercase hex digit is the digit of its own value |
| `DeviceToken.ByteHexOfPair` | FirebasePushMessaging/FirebasePushMessagingApp.swift:61 | a pair of lowercase hex digits is the formatted form of the byte it spells |
| `DeviceToken.IsLowerHex` | FirebasePushMessaging/FirebasePushMessagingApp.swift:61 | the alphabet `%02.2hhx` writes, `0-9` and `a-f`; a predicate used by the specifications, its use is stated by `HexAlphabet`, `Digit` and `DigitValue` |
| `Notifications.PresentationOptions` | FirebasePushMessaging/FirebasePushMessagingApp.swift:79 | the option set the foreground handler answers; its property is stated by `PresentationIgnoresNotification` |
| `Notifications.PresentationIgnoresNotification` | FirebasePushMessaging/FirebasePushMessagingApp.swift:74-80 | every foreground notification gets the same options: banner, list and sound, and never badge or alert |
| `Notifications.AppDelegate.WillPresent` | FirebasePushMessaging/FirebasePushMessagingApp.swift:74-80 | the foreground handler appends one completion with {banner, list, sound} and changes nothing else; afterwards the log holds one completion per callback so far and its posts are exactly the tapped payloads |
| `Notifications.AppDelegate.DidReceive` | FirebasePushMessaging/FirebasePushMessagingApp.swift:82-94 | the tap handler appends a post named `didReceiveRemoteNotification` carrying `userInfo` unchanged, then one completion, and changes nothing else; afterwards the log holds one completion per callback so far and its posts are exactly the tapped payloads |
| `Notifications.AppDelegate.constructor` | FirebasePushMessaging/FirebasePushMessagingApp.swift:27 | a fresh delegate has handled nothing and its log is empty |
| `Notifications.Effects` | FirebasePushMessaging/FirebasePushMessagingApp.swift:79-93 | what one callback appends ends with its own completion, and no completion comes before that |
| `Notifications.Trace` | FirebasePushMessaging/FirebasePushMessagingApp.swift:74-94 | a run of callbacks appends at least one and at most two events per callback |
| `Notifications.Completions` | FirebasePushMessaging/FirebasePushMessagingApp.swift:79-93 | a log holds no more calls of either completion handler (lines 79 and 93) than events |
| `Notifications.Posts` | FirebasePushMessaging/FirebasePushMessagingApp.swift:88-92 | a log holds no more posts than events |
| `Notifications.TappedPayloads` | FirebasePushMessaging/FirebasePushMessagingApp.swift:87 | a run holds no more tapped payloads than callbacks |
| `Notifications.CompletionsConcat` | FirebasePushMessaging/FirebasePushMessagingApp.swift:79-93 | the completions (lines 79 and 93) of two logs joined add up |
| `Notifications.PostsConcat` | FirebasePushMessaging/FirebasePushMessagingApp.swift:88-92 | the posts of two logs joined are the posts of the first followed by those of the second |
| `Notifications.EffectsCompleteOnce` | FirebasePushMessaging/FirebasePushMessagingApp.swift:79-93 | handling one callback calls its completion handler exactly once |
| `Notifications.EachDeliveryCompletedOnce` | FirebasePushMessaging/FirebasePushMessagingApp.swift:74-94 | over any run of callbacks, the log holds exactly one completion per callback |
| `Notifications.PostsAreTappedPayloads` | FirebasePushMessaging/FirebasePushMessagingApp.swift:87-92 | over any run, the posted payloads are exactly the tapped notifications' `userInfo`, unchanged and in order |
| `Notifications.PostThenComplete` | FirebasePushMessaging/FirebasePushMessagingApp.swift:88-93 | every post is named `didReceiveRemoteNotification` and is followed at once by the tap's completion |
| `Notifications.TapScenario` | FirebasePushMessaging/FirebasePushMessagingApp.swift:87-93 | a tap on `{"msg": "hello"}` posts `{"msg": "hello"}` unchanged and then completes |

## Left out

- `FirebaseApp.configure()`, the messaging-delegate assignment and the FCM token fetch (lines 32-34, 43-49): calls into the vendor SDK, whose behaviour is not visible.
- The notification-center delegate assignment (line 36), which routes the two modelled callbacks to the delegate: framework wiring. The model takes the callbacks as calls of `WillPresent` and `DidReceive`.
- The authorization request and `registerForRemoteNotifications()` (lines 38-41): operating-system permission and registration I/O whose outcome the app ignores.
- Every `print` (lines 45, 47, 55, 63, 69), including the registration-failure and FCM-token callbacks, which do nothing but print: console output. Only the string that the token handler prints after its prefix, `readableToken`, is modelled.
- The SwiftUI scene (lines 15-25): user interface.
- The internals of `NotificationCenter` and `UNUserNotificationCenter`, the `object: nil` argument of the post, and the asynchronous, escaping nature of the completion handlers: framework behaviour and concurrency. The model is one sequential log of events in the order the handlers cause them.
- `String(format:)` in general: only its `%02.2hhx` behaviour on one byte is modelled, as `ByteHex`.
- Payload values are a closed `Value` datatype: text, integers, decimals, booleans, null, arrays and nested dictionaries such as `aps`. Dates, `Data` values and other Foundation objects that `userInfo` (`[AnyHashable: Any]`) may hold are not represented, and neither are non-string keys. The handlers never look inside a value, so the "payload unchanged" results would carry over unaltered.
- `HexDecode` is not part of the app. It exists to prove that `Hex` loses nothing.
