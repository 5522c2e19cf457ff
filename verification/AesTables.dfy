/** The substitution tables of AES, which undo each other. */
module AesTables {

  /** sbox, found by halving. */
  function Sub(x: int): int
  {
    if x < 128 then
      if x < 64 then
        if x < 32 then
          if x < 16 then
            if x < 8 then
              match x case 0 => 0x63 case 1 => 0x7c case 2 => 0x77 case 3 => 0x7b case 4 => 0xf2 case 5 => 0x6b case 6 => 0x6f case _ => 0xc5
            else
              match x case 8 => 0x30 case 9 => 0x01 case 10 => 0x67 case 11 => 0x2b case 12 => 0xfe case 13 => 0xd7 case 14 => 0xab case _ => 0x76
          else
            if x < 24 then
              match x case 16 => 0xca case 17 => 0x82 case 18 => 0xc9 case 19 => 0x7d case 20 => 0xfa case 21 => 0x59 case 22 => 0x47 case _ => 0xf0
            else
              match x case 24 => 0xad case 25 => 0xd4 case 26 => 0xa2 case 27 => 0xaf case 28 => 0x9c case 29 => 0xa4 case 30 => 0x72 case _ => 0xc0
        else
          if x < 48 then
            if x < 40 then
              match x case 32 => 0xb7 case 33 => 0xfd case 34 => 0x93 case 35 => 0x26 case 36 => 0x36 case 37 => 0x3f case 38 => 0xf7 case _ => 0xcc
            else
              match x case 40 => 0x34 case 41 => 0xa5 case 42 => 0xe5 case 43 => 0xf1 case 44 => 0x71 case 45 => 0xd8 case 46 => 0x31 case _ => 0x15
          else
            if x < 56 then
              match x case 48 => 0x04 case 49 => 0xc7 case 50 => 0x23 case 51 => 0xc3 case 52 => 0x18 case 53 => 0x96 case 54 => 0x05 case _ => 0x9a
            else
              match x case 56 => 0x07 case 57 => 0x12 case 58 => 0x80 case 59 => 0xe2 case 60 => 0xeb case 61 => 0x27 case 62 => 0xb2 case _ => 0x75
      else
        if x < 96 then
          if x < 80 then
            if x < 72 then
              match x case 64 => 0x09 case 65 => 0x83 case 66 => 0x2c case 67 => 0x1a case 68 => 0x1b case 69 => 0x6e case 70 => 0x5a case _ => 0xa0
            else
              match x case 72 => 0x52 case 73 => 0x3b case 74 => 0xd6 case 75 => 0xb3 case 76 => 0x29 case 77 => 0xe3 case 78 => 0x2f case _ => 0x84
          else
            if x < 88 then
              match x case 80 => 0x53 case 81 => 0xd1 case 82 => 0x00 case 83 => 0xed case 84 => 0x20 case 85 => 0xfc case 86 => 0xb1 case _ => 0x5b
            else
              match x case 88 => 0x6a case 89 => 0xcb case 90 => 0xbe case 91 => 0x39 case 92 => 0x4a case 93 => 0x4c case 94 => 0x58 case _ => 0xcf
        else
          if x < 112 then
            if x < 104 then
              match x case 96 => 0xd0 case 97 => 0xef case 98 => 0xaa case 99 => 0xfb case 100 => 0x43 case 101 => 0x4d case 102 => 0x33 case _ => 0x85
            else
              match x case 104 => 0x45 case 105 => 0xf9 case 106 => 0x02 case 107 => 0x7f case 108 => 0x50 case 109 => 0x3c case 110 => 0x9f case _ => 0xa8
          else
            if x < 120 then
              match x case 112 => 0x51 case 113 => 0xa3 case 114 => 0x40 case 115 => 0x8f case 116 => 0x92 case 117 => 0x9d case 118 => 0x38 case _ => 0xf5
            else
              match x case 120 => 0xbc case 121 => 0xb6 case 122 => 0xda case 123 => 0x21 case 124 => 0x10 case 125 => 0xff case 126 => 0xf3 case _ => 0xd2
    else
      if x < 192 then
        if x < 160 then
          if x < 144 then
            if x < 136 then
              match x case 128 => 0xcd case 129 => 0x0c case 130 => 0x13 case 131 => 0xec case 132 => 0x5f case 133 => 0x97 case 134 => 0x44 case _ => 0x17
            else
              match x case 136 => 0xc4 case 137 => 0xa7 case 138 => 0x7e case 139 => 0x3d case 140 => 0x64 case 141 => 0x5d case 142 => 0x19 case _ => 0x73
          else
            if x < 152 then
              match x case 144 => 0x60 case 145 => 0x81 case 146 => 0x4f case 147 => 0xdc case 148 => 0x22 case 149 => 0x2a case 150 => 0x90 case _ => 0x88
            else
              match x case 152 => 0x46 case 153 => 0xee case 154 => 0xb8 case 155 => 0x14 case 156 => 0xde case 157 => 0x5e case 158 => 0x0b case _ => 0xdb
        else
          if x < 176 then
            if x < 168 then
              match x case 160 => 0xe0 case 161 => 0x32 case 162 => 0x3a case 163 => 0x0a case 164 => 0x49 case 165 => 0x06 case 166 => 0x24 case _ => 0x5c
            else
              match x case 168 => 0xc2 case 169 => 0xd3 case 170 => 0xac case 171 => 0x62 case 172 => 0x91 case 173 => 0x95 case 174 => 0xe4 case _ => 0x79
          else
            if x < 184 then
              match x case 176 => 0xe7 case 177 => 0xc8 case 178 => 0x37 case 179 => 0x6d case 180 => 0x8d case 181 => 0xd5 case 182 => 0x4e case _ => 0xa9
            else
              match x case 184 => 0x6c case 185 => 0x56 case 186 => 0xf4 case 187 => 0xea case 188 => 0x65 case 189 => 0x7a case 190 => 0xae case _ => 0x08
      else
        if x < 224 then
          if x < 208 then
            if x < 200 then
              match x case 192 => 0xba case 193 => 0x78 case 194 => 0x25 case 195 => 0x2e case 196 => 0x1c case 197 => 0xa6 case 198 => 0xb4 case _ => 0xc6
            else
              match x case 200 => 0xe8 case 201 => 0xdd case 202 => 0x74 case 203 => 0x1f case 204 => 0x4b case 205 => 0xbd case 206 => 0x8b case _ => 0x8a
          else
            if x < 216 then
              match x case 208 => 0x70 case 209 => 0x3e case 210 => 0xb5 case 211 => 0x66 case 212 => 0x48 case 213 => 0x03 case 214 => 0xf6 case _ => 0x0e
            else
              match x case 216 => 0x61 case 217 => 0x35 case 218 => 0x57 case 219 => 0xb9 case 220 => 0x86 case 221 => 0xc1 case 222 => 0x1d case _ => 0x9e
        else
          if x < 240 then
            if x < 232 then
              match x case 224 => 0xe1 case 225 => 0xf8 case 226 => 0x98 case 227 => 0x11 case 228 => 0x69 case 229 => 0xd9 case 230 => 0x8e case _ => 0x94
            else
              match x case 232 => 0x9b case 233 => 0x1e case 234 => 0x87 case 235 => 0xe9 case 236 => 0xce case 237 => 0x55 case 238 => 0x28 case _ => 0xdf
          else
            if x < 248 then
              match x case 240 => 0x8c case 241 => 0xa1 case 242 => 0x89 case 243 => 0x0d case 244 => 0xbf case 245 => 0xe6 case 246 => 0x42 case _ => 0x68
            else
              match x case 248 => 0x41 case 249 => 0x99 case 250 => 0x2d case 251 => 0x0f case 252 => 0xb0 case 253 => 0x54 case 254 => 0xbb case _ => 0x16
  }

  /** rsbox, found by halving. */
  function InvSub(x: int): int
  {
    if x < 128 then
      if x < 64 then
        if x < 32 then
          if x < 16 then
            if x < 8 then
              match x case 0 => 0x52 case 1 => 0x09 case 2 => 0x6a case 3 => 0xd5 case 4 => 0x30 case 5 => 0x36 case 6 => 0xa5 case _ => 0x38
            else
              match x case 8 => 0xbf case 9 => 0x40 case 10 => 0xa3 case 11 => 0x9e case 12 => 0x81 case 13 => 0xf3 case 14 => 0xd7 case _ => 0xfb
          else
            if x < 24 then
              match x case 16 => 0x7c case 17 => 0xe3 case 18 => 0x39 case 19 => 0x82 case 20 => 0x9b case 21 => 0x2f case 22 => 0xff case _ => 0x87
            else
              match x case 24 => 0x34 case 25 => 0x8e case 26 => 0x43 case 27 => 0x44 case 28 => 0xc4 case 29 => 0xde case 30 => 0xe9 case _ => 0xcb
        else
          if x < 48 then
            if x < 40 then
              match x case 32 => 0x54 case 33 => 0x7b case 34 => 0x94 case 35 => 0x32 case 36 => 0xa6 case 37 => 0xc2 case 38 => 0x23 case _ => 0x3d
            else
              match x case 40 => 0xee case 41 => 0x4c case 42 => 0x95 case 43 => 0x0b case 44 => 0x42 case 45 => 0xfa case 46 => 0xc3 case _ => 0x4e
          else
            if x < 56 then
              match x case 48 => 0x08 case 49 => 0x2e case 50 => 0xa1 case 51 => 0x66 case 52 => 0x28 case 53 => 0xd9 case 54 => 0x24 case _ => 0xb2
            else
              match x case 56 => 0x76 case 57 => 0x5b case 58 => 0xa2 case 59 => 0x49 case 60 => 0x6d case 61 => 0x8b case 62 => 0xd1 case _ => 0x25
      else
        if x < 96 then
          if x < 80 then
            if x < 72 then
              match x case 64 => 0x72 case 65 => 0xf8 case 66 => 0xf6 case 67 => 0x64 case 68 => 0x86 case 69 => 0x68 case 70 => 0x98 case _ => 0x16
            else
              match x case 72 => 0xd4 case 73 => 0xa4 case 74 => 0x5c case 75 => 0xcc case 76 => 0x5d case 77 => 0x65 case 78 => 0xb6 case _ => 0x92
          else
            if x < 88 then
              match x case 80 => 0x6c case 81 => 0x70 case 82 => 0x48 case 83 => 0x50 case 84 => 0xfd case 85 => 0xed case 86 => 0xb9 case _ => 0xda
            else
              match x case 88 => 0x5e case 89 => 0x15 case 90 => 0x46 case 91 => 0x57 case 92 => 0xa7 case 93 => 0x8d case 94 => 0x9d case _ => 0x84
        else
          if x < 112 then
            if x < 104 then
              match x case 96 => 0x90 case 97 => 0xd8 case 98 => 0xab case 99 => 0x00 case 100 => 0x8c case 101 => 0xbc case 102 => 0xd3 case _ => 0x0a
            else
              match x case 104 => 0xf7 case 105 => 0xe4 case 106 => 0x58 case 107 => 0x05 case 108 => 0xb8 case 109 => 0xb3 case 110 => 0x45 case _ => 0x06
          else
            if x < 120 then
              match x case 112 => 0xd0 case 113 => 0x2c case 114 => 0x1e case 115 => 0x8f case 116 => 0xca case 117 => 0x3f case 118 => 0x0f case _ => 0x02
            else
              match x case 120 => 0xc1 case 121 => 0xaf case 122 => 0xbd case 123 => 0x03 case 124 => 0x01 case 125 => 0x13 case 126 => 0x8a case _ => 0x6b
    else
      if x < 192 then
        if x < 160 then
          if x < 144 then
            if x < 136 then
              match x case 128 => 0x3a case 129 => 0x91 case 130 => 0x11 case 131 => 0x41 case 132 => 0x4f case 133 => 0x67 case 134 => 0xdc case _ => 0xea
            else
              match x case 136 => 0x97 case 137 => 0xf2 case 138 => 0xcf case 139 => 0xce case 140 => 0xf0 case 141 => 0xb4 case 142 => 0xe6 case _ => 0x73
          else
            if x < 152 then
              match x case 144 => 0x96 case 145 => 0xac case 146 => 0x74 case 147 => 0x22 case 148 => 0xe7 case 149 => 0xad case 150 => 0x35 case _ => 0x85
            else
              match x case 152 => 0xe2 case 153 => 0xf9 case 154 => 0x37 case 155 => 0xe8 case 156 => 0x1c case 157 => 0x75 case 158 => 0xdf case _ => 0x6e
        else
          if x < 176 then
            if x < 168 then
              match x case 160 => 0x47 case 161 => 0xf1 case 162 => 0x1a case 163 => 0x71 case 164 => 0x1d case 165 => 0x29 case 166 => 0xc5 case _ => 0x89
            else
              match x case 168 => 0x6f case 169 => 0xb7 case 170 => 0x62 case 171 => 0x0e case 172 => 0xaa case 173 => 0x18 case 174 => 0xbe case _ => 0x1b
          else
            if x < 184 then
              match x case 176 => 0xfc case 177 => 0x56 case 178 => 0x3e case 179 => 0x4b case 180 => 0xc6 case 181 => 0xd2 case 182 => 0x79 case _ => 0x20
            else
              match x case 184 => 0x9a case 185 => 0xdb case 186 => 0xc0 case 187 => 0xfe case 188 => 0x78 case 189 => 0xcd case 190 => 0x5a case _ => 0xf4
      else
        if x < 224 then
          if x < 208 then
            if x < 200 then
              match x case 192 => 0x1f case 193 => 0xdd case 194 => 0xa8 case 195 => 0x33 case 196 => 0x88 case 197 => 0x07 case 198 => 0xc7 case _ => 0x31
            else
              match x case 200 => 0xb1 case 201 => 0x12 case 202 => 0x10 case 203 => 0x59 case 204 => 0x27 case 205 => 0x80 case 206 => 0xec case _ => 0x5f
          else
            if x < 216 then
              match x case 208 => 0x60 case 209 => 0x51 case 210 => 0x7f case 211 => 0xa9 case 212 => 0x19 case 213 => 0xb5 case 214 => 0x4a case _ => 0x0d
            else
              match x case 216 => 0x2d case 217 => 0xe5 case 218 => 0x7a case 219 => 0x9f case 220 => 0x93 case 221 => 0xc9 case 222 => 0x9c case _ => 0xef
        else
          if x < 240 then
            if x < 232 then
              match x case 224 => 0xa0 case 225 => 0xe0 case 226 => 0x3b case 227 => 0x4d case 228 => 0xae case 229 => 0x2a case 230 => 0xf5 case _ => 0xb0
            else
              match x case 232 => 0xc8 case 233 => 0xeb case 234 => 0xbb case 235 => 0x3c case 236 => 0x83 case 237 => 0x53 case 238 => 0x99 case _ => 0x61
          else
            if x < 248 then
              match x case 240 => 0x17 case 241 => 0x2b case 242 => 0x04 case 243 => 0x7e case 244 => 0xba case 245 => 0x77 case 246 => 0xd6 case _ => 0x26
            else
              match x case 248 => 0xe1 case 249 => 0x69 case 250 => 0x14 case 251 => 0x63 case 252 => 0x55 case 253 => 0x21 case 254 => 0x0c case _ => 0x7d
  }

  // rsbox undoes sbox, a quarter of the bytes at a time.

  lemma Undone0(x: int)
    requires 0 <= x < 64
    ensures 0 <= Sub(x) < 256 && InvSub(Sub(x)) == x
  {}

  lemma Undone1(x: int)
    requires 64 <= x < 128
    ensures 0 <= Sub(x) < 256 && InvSub(Sub(x)) == x
  {}

  lemma Undone2(x: int)
    requires 128 <= x < 192
    ensures 0 <= Sub(x) < 256 && InvSub(Sub(x)) == x
  {}

  lemma Undone3(x: int)
    requires 192 <= x < 256
    ensures 0 <= Sub(x) < 256 && InvSub(Sub(x)) == x
  {}

  lemma SubUndone(x: int)
    requires 0 <= x < 256
    ensures 0 <= Sub(x) < 256 && InvSub(Sub(x)) == x
  {
    hide Sub, InvSub;
    if x < 64 {
      Undone0(x);
    } else if x < 128 {
      Undone1(x);
    } else if x < 192 {
      Undone2(x);
    } else {
      Undone3(x);
    }
  }

  lemma InvSubBound(x: int)
    requires 0 <= x < 256
    ensures 0 <= InvSub(x) < 256
  {
    hide Sub;
  }
}
