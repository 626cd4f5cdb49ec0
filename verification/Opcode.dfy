/** Opcode numbers. */
module Opcode {
  const OP_0: int := 0
  const OP_PUSHDATA1: int := 76
  const OP_PUSHDATA2: int := 77
  const OP_PUSHDATA4: int := 78
  const OP_1NEGATE: int := 79
  const OP_RESERVED: int := 80
  const OP_1: int := 81
  const OP_4: int := 84
  const OP_16: int := 96
  const OP_NOP: int := 97
  const OP_VER: int := 98
  const OP_IF: int := 99
  const OP_NOTIF: int := 100
  const OP_VERIF: int := 101
  const OP_VERNOTIF: int := 102
  const OP_ELSE: int := 103
  const OP_ENDIF: int := 104
  const OP_VERIFY: int := 105
  const OP_RETURN: int := 106
  const OP_TOALTSTACK: int := 107
  const OP_FROMALTSTACK: int := 108
  const OP_2DROP: int := 109
  const OP_2DUP: int := 110
  const OP_3DUP: int := 111
  const OP_2OVER: int := 112
  const OP_2ROT: int := 113
  const OP_2SWAP: int := 114
  const OP_IFDUP: int := 115
  const OP_DEPTH: int := 116
  const OP_DROP: int := 117
  const OP_DUP: int := 118
  const OP_NIP: int := 119
  const OP_OVER: int := 120
  const OP_PICK: int := 121
  const OP_ROLL: int := 122
  const OP_ROT: int := 123
  const OP_SWAP: int := 124
  const OP_TUCK: int := 125
  const OP_CAT: int := 126
  const OP_SPLIT: int := 127
  const OP_NUM2BIN: int := 128
  const OP_BIN2NUM: int := 129
  const OP_SIZE: int := 130
  const OP_INVERT: int := 131
  const OP_AND: int := 132
  const OP_OR: int := 133
  const OP_XOR: int := 134
  const OP_EQUAL: int := 135
  const OP_EQUALVERIFY: int := 136
  const OP_RESERVED1: int := 137
  const OP_RESERVED2: int := 138
  const OP_1ADD: int := 139
  const OP_1SUB: int := 140
  const OP_2MUL: int := 141
  const OP_2DIV: int := 142
  const OP_NEGATE: int := 143
  const OP_ABS: int := 144
  const OP_NOT: int := 145
  const OP_0NOTEQUAL: int := 146
  const OP_ADD: int := 147
  const OP_SUB: int := 148
  const OP_MUL: int := 149
  const OP_DIV: int := 150
  const OP_MOD: int := 151
  const OP_LSHIFT: int := 152
  const OP_RSHIFT: int := 153
  const OP_BOOLAND: int := 154
  const OP_BOOLOR: int := 155
  const OP_NUMEQUAL: int := 156
  const OP_NUMEQUALVERIFY: int := 157
  const OP_NUMNOTEQUAL: int := 158
  const OP_LESSTHAN: int := 159
  const OP_GREATERTHAN: int := 160
  const OP_LESSTHANOREQUAL: int := 161
  const OP_GREATERTHANOREQUAL: int := 162
  const OP_MIN: int := 163
  const OP_MAX: int := 164
  const OP_WITHIN: int := 165
  const OP_RIPEMD160: int := 166
  const OP_SHA1: int := 167
  const OP_SHA256: int := 168
  const OP_HASH160: int := 169
  const OP_HASH256: int := 170
  const OP_CODESEPARATOR: int := 171
  const OP_CHECKSIG: int := 172
  const OP_CHECKSIGVERIFY: int := 173
  const OP_CHECKMULTISIG: int := 174
  const OP_CHECKMULTISIGVERIFY: int := 175
  const OP_NOP2: int := 177
  const OP_NOP3: int := 178
  const OP_NOP1: int := 176
  const OP_NOP4: int := 179
  const OP_NOP5: int := 180
  const OP_NOP6: int := 181
  const OP_NOP7: int := 182
  const OP_NOP8: int := 183
  const OP_NOP9: int := 184
  const OP_NOP10: int := 185
  const OP_CHECKDATASIG: int := 186
  const OP_CHECKDATASIGVERIFY: int := 187
  const OP_REVERSEBYTES: int := 188
}
