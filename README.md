# network-manager-qrcode, modelled in Dafny

This project models the core of network-manager-qrcode. That core turns a wireless
connection, as the NetworkManager settings service describes it, into the text of a
"WIFI:" network-configuration barcode:

    WIFI:T:<security type>;S:<ssid>;P:<passphrase>;;

The model also covers the helpers that read a connection's settings:

- merging secrets into the configuration;
- rendering a settings tree as text;
- the accessors that decide the security type and pick the key.

Modules, one file each:

- `Common` (common.dfy): `Option`, `Result` and `byte`.
- `OrderedDict` (ordered_dict.dfy): Python dictionaries as sequences of (key, value) pairs in
  insertion order. `Put` is `d[k] = v`: an existing key keeps its place, a new key is appended.
- `Settings` (settings.dfy): setting values. `Value` is a D-Bus array of bytes, strings or other
  elements, a nested dictionary, or any other value given by the text `str()` makes of it.
  `Render` is the specification of `dict_to_string`. `DictToString` is the method with its
  loops and recursion. `Lines`/`LayOut` describe the output independently, as a flat list of
  printed lines.
- `Secrets` (secrets.dfy): `merge_secrets` as the method `ConnectionSettings.MergeSecrets`.
  It updates the configuration held by a class instance in place. `Merged` is its
  specification function.
- `Connections` (connections.dfy): the `Connection` accessors `SecType`, `GetKey`,
  `GetPassphrase` and `GetSsid`. Also the part of `Connection.__init__` that runs after the
  service calls (`Load`).
- `HexText` (hex.dfy): lower-case hex text of bytes and its inverse.
- `Barcode` (barcode.dfy): `create_string` as the method `CreateString`. It fills a 64-element
  array in a loop for WEP connections, then appends the fields. `BarcodeText` is its
  specification function, and the WEP key derivation and payload lemmas sit beside it.

Parameters stand for external calls:

- MD5 is a parameter `md5: seq<byte> -> Digest`, where a digest is 16 bytes.
- The reply of the service's `GetSecrets` call is a parameter of type `Option<Config>`.
  `None` means the call raised.
- In `Load`, the replies for all setting names are one function parameter.

## Behaviour of the code worth knowing

- The type field is only ever `WEP` (the security setting holds `wep-key0`) or `WPA`. There is
  no open-network type. A connection with neither `wep-key0` nor `psk` gets `T:WPA` and the
  passphrase text `None`, since `str(None)` is `"None"` (`BarcodeNoKey`).
- No field is escaped, and a hex-looking passphrase is not quoted. The comment at
  create_barcode_string.py:50-52 talks about quoting, but line 53 inserts the passphrase as it
  is. A `;` inside a field can therefore make two different connections share one barcode text
  (`PayloadAmbiguous`). The text reads back as its fields exactly when no field holds a `;`
  (`PayloadRoundTrip`, `PayloadNoRoundTrip`).
- In the WEP branch, the `quotedphrase` value set at create_barcode_string.py:34 is overwritten
  at line 45. The method keeps that dead assignment.
- Failures are exceptions that nothing catches, modelled as `Err`:
  - an empty WEP key hits `i % 0` (`ModuloByZero`);
  - a character whose code does not fit in a byte is rejected by the `bytearray`
    (`ByteOutOfRange`). Only the characters the 64-byte buffer reads can raise this. A key
    longer than 64 characters is never read past its 64th character (`WepLongPassword`);
  - a missing wireless setting or SSID raises `KeyError` (`SsidMissing`).
- The model follows Python 3 semantics, with line 40 of create_barcode_string.py replaced by
  the value it evidently intends (next item): a character's code point is its byte, and text
  formatting never fails. The failure claims above hold under that reading.
- The per-character conversion at create_barcode_string.py:40, `"%c" % bytes(password[i % l])`,
  is a latent defect. Under Python 3, `bytes` of a text character raises `TypeError`, so the WEP
  branch would always fail. The model uses the intended value: byte i of the buffer is the
  code of character `i mod l`, which is the usual WEP passphrase-to-key convention.
- `merge_secrets` swallows every exception. When `GetSecrets` fails, or when the setting is not
  in the configuration, nothing changes. In the second case the first assignment raises
  `KeyError` before anything is written.

## Model

| member | source | states |
|---|---|---|
| `Barcode.Quoted` | create_barcode_string.py:23-25 | the text is the original between one leading and one trailing double quote: two characters longer, and its inner part is the original |
| `Barcode.WepBuffer` | create_barcode_string.py:37-42 | filling the buffer fails with a modulo by zero exactly when the WEP key is empty; it fails with an out-of-range byte exactly when the key is non-empty and one of the 64 characters read has a code of 256 or more; otherwise it succeeds, and byte i is the code of character `i mod l` |
| `Barcode.WepBufferRepeats` | create_barcode_string.py:37-42 | the 64-byte buffer starts with the key's character codes and repeats with the key's length as period |
| `Barcode.WepKeyShape` | create_barcode_string.py:43-45 | the derived passphrase has 26 lower-case hex characters; it is the hex text of the first 13 digest bytes and reads back as them |
| `Barcode.WepDoubledPassword` | create_barcode_string.py:37-45 | a key written twice over derives the same passphrase, or fails the same way: the result depends only on the cyclic buffer |
| `Barcode.WepLongPassword` | create_barcode_string.py:37-45 | only a key's first 64 characters affect the derived passphrase or its failure |
| `Barcode.CreateString` | create_barcode_string.py:27-56 | the loop fills the buffer with the key's characters cyclically, and the result equals `BarcodeText`, errors included |
| `Barcode.PayloadShape` | create_barcode_string.py:47-54 | for any fields, the text starts with `WIFI:T:`, then the type and `;`, and ends with `;;` |
| `Barcode.BarcodeShape` | create_barcode_string.py:27-56 | every text create_string returns starts with `WIFI:T:` and ends with `;;` |
| `Barcode.PayloadRoundTrip` | create_barcode_string.py:47-54 | when no field holds `;`, parsing the text gives back the type, SSID and passphrase unchanged |
| `Barcode.PayloadNoRoundTrip` | create_barcode_string.py:47-54 | when some field holds `;`, parsing the text does not give back the type, SSID and passphrase |
| `Barcode.PayloadAmbiguous` | create_barcode_string.py:49-53 | without escaping, two different (SSID, passphrase) pairs give one barcode text |
| `Barcode.BarcodeWpa` | create_barcode_string.py:31-54 | for a connection without a WEP key, the text is `WIFI:T:WPA;S:<ssid>;P:<psk>;;`: type and SSID from the accessors, pre-shared key verbatim |
| `Barcode.BarcodeNoKey` | create_barcode_string.py:31-54 | a connection with neither key gets `T:WPA` and the passphrase `None` |
| `Barcode.BarcodeWep` | create_barcode_string.py:32-54 | for a WEP connection, the passphrase is the hex text of the first 13 bytes of MD5 of the repeated key, and depends only on that key |
| `Barcode.BarcodeWepEmpty` | create_barcode_string.py:37-40 | an empty WEP key fails with a modulo by zero, whatever the SSID |
| `Barcode.BarcodeByteOutOfRange` | create_barcode_string.py:37-42 | a WEP key with a character of code 256 or more among the 64 read fails with an out-of-range byte, whatever the SSID |
| `Barcode.BarcodeSsidMissing` | create_barcode_string.py:47-49 | a connection without a textual SSID fails once the passphrase is settled |
| `HexText.Hex` | create_barcode_string.py:45 | hex text has two lower-case hex characters per byte |
| `HexText.HexRoundTrip` | create_barcode_string.py:45 | hex text reads back as the bytes it came from |
| `HexText.HexPrefix` | create_barcode_string.py:45 | the first 2n hex characters are the hex text of the first n bytes |
| `OrderedDict.GetPut` | read_connections.py:38 | after `d[k] = v`, `d[k]` is `v` and every other key reads as before |
| `OrderedDict.PutDistinct` | read_connections.py:38 | assignment keeps the keys of a dictionary distinct |
| `Secrets.Merged` | read_connections.py:29-40 | merging keeps the setting names and their order, leaves other settings unchanged, and changes nothing when `GetSecrets` fails or the setting is missing |
| `Secrets.PutAllGet` | read_connections.py:36-38 | after the assignments, a key reads as the value of its last assignment, and a key never assigned keeps its value |
| `Secrets.MergedSecretWins` | read_connections.py:36-38 | after a merge, each key of the setting holds the value from the last secrets setting iterated that names it; other keys keep their values |
| `Secrets.PutAllDistinct` | read_connections.py:36-38 | merging keeps the setting's keys distinct |
| `Secrets.ConnectionSettings.MergeSecrets` | read_connections.py:29-40 | the nested loops leave the configuration equal to `Merged` of the old one |
| `Connections.Connection.SecType` | read_connections.py:134-137 | the type is `WEP` exactly when the security setting holds `wep-key0`, and `WPA` otherwise; nothing else is ever returned |
| `Connections.Connection.GetKey` | read_connections.py:120-123 | a WEP connection's key is its `wep-key0`, which is present; otherwise it is `psk`, absent exactly when neither key exists |
| `Connections.Connection.GetPassphrase` | read_connections.py:125-129 | the passphrase is the key, unencoded |
| `Connections.Connection.GetSsid` | read_connections.py:131-132 | the SSID is present exactly when the wireless setting holds a textual `ssid`, and it is that text |
| `Connections.FromConfigSecType` | read_connections.py:134-137 | a connection is WEP exactly when its configuration's wireless-security setting holds `wep-key0` |
| `Connections.MissingSecurity` | read_connections.py:107 | without a wireless-security setting, the type is `WPA` and the key is absent |
| `Connections.MergeEach` | read_connections.py:100-105 | merging secrets setting by setting keeps the configuration's setting names |
| `Connections.Load` | read_connections.py:94-109 | the connection is built from the configuration with the six settings' secrets merged in order; its setting names are those fetched |
| `Settings.DecimalText` | read_connections.py:53 | a byte's decimal text is a non-empty string of digits with no leading zero; it starts with `0` only for 0, which prints as the one digit `0` |
| `Settings.DecimalRoundTrip` | read_connections.py:53 | decimal text reads back as the number |
| `Settings.DictToString` | read_connections.py:42-63 | the loops and the recursion produce exactly `Render` of the dictionary at the given indentation |
| `Settings.RenderLayOut` | read_connections.py:42-63 | the output is one `indent key: text` line per non-dictionary value, in order, four more spaces per level of nesting, and no line for a nested dictionary's key |
| `Settings.RenderLineCount` | read_connections.py:59-62 | when no key or text holds a line break, the output has exactly as many lines as there are non-dictionary values |
| `Settings.ByteArrayRoundTrip` | read_connections.py:50-53 | a byte array's text is each byte in decimal followed by a space, and reads back as the same bytes |
| `Settings.ElementsTextAppend` | read_connections.py:51-55 | an array's text is its elements' texts in order |
| `Settings.StringArrayText` | read_connections.py:54-55 | a string array's text is its strings concatenated with nothing between them |

## Left out

- MD5 itself (create_barcode_string.py:20, 43) is a library call. It is a parameter that maps
  any bytes to 16 bytes.
- The debug `print` at create_barcode_string.py:41 is console output only.
- The literal Python 2/3 conversion `"%c" % bytes(...)` at create_barcode_string.py:40 is
  replaced by the byte value it evidently intends (see above).
- `Quoted`, `WepBuffer`, `WepLongPassword`: under Python 2, where line 40 as written works,
  `quotedphrase(password)` at create_barcode_string.py:34 subclasses the 8-bit `str` and
  raises `UnicodeEncodeError` for a WEP key with any non-ASCII character, wherever it sits.
  The model does not capture that failure: `Quoted` never fails, codes 128 to 255 are taken as
  bytes (a character's code point, not its UTF-8 encoding), and characters past the 64th are
  never read.
- `CreateString`: the model reports `KeyNotText` for every key that is a D-Bus array or
  dictionary rather than text, and does not follow what the code does with it. Outside the WEP
  branch the code prints Python's `str()` of the container at create_barcode_string.py:53. In
  the WEP branch, lines 34 and 37-42 run on the container: an empty one fails at `i % 0`, other
  containers fail in the conversion at line 40, except an array of one-character strings,
  which the loop reads like text. A key that is neither text nor a container (a D-Bus integer,
  boolean or byte string) is held as the text `str()` prints for it, so in the WEP branch the
  model derives a key from that printed text, while the code raises `TypeError` at
  `len(password)` (create_barcode_string.py:37) for an integer or boolean and, under Python 3,
  reads a byte string's bytes rather than its printed text. NetworkManager sends `wep-key0` and
  `psk` as strings, so these inputs do not arise from it.
- `Connections.Connection.GetSsid`: the UTF-8 decoding of the SSID bytes is not modelled. The
  SSID is taken as already-decoded text held in a scalar value.
- `Settings`: a scalar value is given by the text `str()` makes of it. How Python prints a
  D-Bus integer, boolean or byte string is not modelled.
- All D-Bus plumbing is I/O against an external service: the system bus at
  read_connections.py:27, `list_connections` (73-85), the `GetSettings`/`GetSecrets` calls in
  `Connection.__init__` (89-105), and the module-level call at line 140.
- `connection_to_string` and `Connection.__str__` (read_connections.py:65-70, 111-115) only
  print to the console.
- `Connection.get_id` (read_connections.py:117-118) is not used by the barcode code.
- scan_wifi_code.py (camera pipeline, windowing, barcode decoding) is not part of this model.
- Backslash escaping of `\ ; , "` and quoting of hex-looking passphrases are not done by the
  code, so they are not modelled as its behaviour. `PayloadAmbiguous` records the consequence.
